/** The rental service's writes and reads over an in-memory copy of the
    `rentals` and `rental_items` tables (`rentalService.ts`): create and
    update as transactions that either commit every statement or roll all
    of them back, getById and list with their expiry writes, and count.

    A statement the database rejects is named by `failAt`, the index of
    the statement within its transaction; the foreign keys of the schema
    (a rental's client, an item's rental and equipment) reject a statement
    as well. Clients and equipment are fixed: only their names are read. */
module RentalStore {
  import opened Wrappers
  import opened Calendar
  import opened Domain
  import opened RentalRules
  import opened RentalRows

  /** Statement `k` of a transaction is not the one the database rejects. */
  predicate Passes(failAt: Option<nat>, k: nat) {
    failAt != Some(k)
  }

  /** Statements `lo` to `lo + n - 1` of a transaction all go through. */
  predicate PassesFrom(failAt: Option<nat>, lo: nat, n: nat) {
    failAt.None? || failAt.value < lo || lo + n <= failAt.value
  }

  /** PassesFrom is `Passes` for each statement of the range. */
  lemma PassesFromEach(failAt: Option<nat>, lo: nat, n: nat)
    ensures PassesFrom(failAt, lo, n) <==> forall k :: lo <= k < lo + n ==> Passes(failAt, k)
  {
    if !PassesFrom(failAt, lo, n) {
      assert !Passes(failAt, failAt.value);
    }
  }

  /** create's statements all go through: the header insert (statement 0)
      names an existing client, and each item insert (statement k + 1) an
      existing equipment. */
  predicate CreateSucceeds(input: RentalCreateInput, failAt: Option<nat>,
                           clients: map<int, string>, equipments: map<int, string>) {
    Passes(failAt, 0) && input.clientId in clients
    && PassesFrom(failAt, 1, |input.items|)
    && forall k :: 0 <= k < |input.items| ==> input.items[k].equipmentId in equipments
  }

  /** update's statements all go through: the header update (statement 0),
      which checks the client only when it finds the row, the delete of
      the old items (statement 1), and each item insert (statement k + 2),
      which needs the rental and the equipment to exist. */
  predicate UpdateSucceeds(rentals: seq<RentalRow>, rentalId: int, input: RentalCreateInput,
                           failAt: Option<nat>, clients: map<int, string>, equipments: map<int, string>) {
    Passes(failAt, 0) && (HasRental(rentals, rentalId) ==> input.clientId in clients)
    && Passes(failAt, 1)
    && PassesFrom(failAt, 2, |input.items|)
    && (input.items != [] ==> HasRental(rentals, rentalId))
    && forall k :: 0 <= k < |input.items| ==> input.items[k].equipmentId in equipments
  }

  /** The `rentals` table: AUTOINCREMENT ids from 1, ascending and below
      the next id to hand out, each naming an existing client. */
  predicate RentalsOk(rentals: seq<RentalRow>, nextRentalId: int, clients: map<int, string>) {
    1 <= nextRentalId
    && RowIdsAscending(rentals)
    && forall k :: 0 <= k < |rentals| ==>
         1 <= rentals[k].id < nextRentalId && rentals[k].header.clientId in clients
  }

  /** The `rental_items` table: AUTOINCREMENT ids from 1, ascending and
      below the next id, each naming an existing equipment and rental. */
  predicate ItemsOk(items: seq<ItemRow>, nextItemId: int, equipments: map<int, string>, rentals: seq<RentalRow>) {
    1 <= nextItemId
    && IdsAscending(items)
    && forall k :: 0 <= k < |items| ==>
         1 <= items[k].id < nextItemId && items[k].equipmentId in equipments
         && HasRental(rentals, items[k].rentalId)
  }

  /** What the tables always satisfy: the ids and the foreign keys. */
  predicate Tables(rentals: seq<RentalRow>, items: seq<ItemRow>, nextRentalId: int, nextItemId: int,
                   clients: map<int, string>, equipments: map<int, string>) {
    RentalsOk(rentals, nextRentalId, clients) && ItemsOk(items, nextItemId, equipments, rentals)
  }

  /** Ascending ids are unique. */
  lemma AscendingUnique(rentals: seq<RentalRow>)
    requires RowIdsAscending(rentals)
    ensures UniqueRowIds(rentals)
  {
  }

  /** Items stay valid when every rental they name is still there. */
  lemma ItemsOkMoreRentals(items: seq<ItemRow>, nextItemId: int, equipments: map<int, string>,
                           rentals: seq<RentalRow>, rentals2: seq<RentalRow>)
    requires ItemsOk(items, nextItemId, equipments, rentals)
    requires forall id :: HasRental(rentals, id) ==> HasRental(rentals2, id)
    ensures ItemsOk(items, nextItemId, equipments, rentals2)
  {
  }

  /** Rows that keep every id and client keep the invariant. */
  lemma TablesOfSameKeys(rentals: seq<RentalRow>, rentals2: seq<RentalRow>, items: seq<ItemRow>,
                         nextRentalId: int, nextItemId: int,
                         clients: map<int, string>, equipments: map<int, string>)
    requires Tables(rentals, items, nextRentalId, nextItemId, clients, equipments)
    requires |rentals2| == |rentals|
    requires forall k :: 0 <= k < |rentals| ==>
      rentals2[k].id == rentals[k].id && rentals2[k].header.clientId == rentals[k].header.clientId
    ensures Tables(rentals2, items, nextRentalId, nextItemId, clients, equipments)
  {
    forall id | HasRental(rentals, id)
      ensures HasRental(rentals2, id)
    {
      var m :| 0 <= m < |rentals| && rentals[m].id == id;
      assert rentals2[m].id == id;
    }
    ItemsOkMoreRentals(items, nextItemId, equipments, rentals, rentals2);
  }

  /** The expiry sweep keeps every id and client, so the tables stay valid. */
  lemma SweepKeepsTables(rentals: seq<RentalRow>, items: seq<ItemRow>, nextRentalId: int, nextItemId: int,
                         clients: map<int, string>, equipments: map<int, string>, today: Date, now: string)
    requires Tables(rentals, items, nextRentalId, nextItemId, clients, equipments)
    ensures Tables(SweepRows(rentals, today, now), items, nextRentalId, nextItemId, clients, equipments)
  {
    var swept := SweepRows(rentals, today, now);
    forall k | 0 <= k < |rentals|
      ensures swept[k].id == rentals[k].id && swept[k].header.clientId == rentals[k].header.clientId
    {
    }
    TablesOfSameKeys(rentals, swept, items, nextRentalId, nextItemId, clients, equipments);
  }

  /** Inserting a rental with the next id and an existing client keeps the
      rentals valid, and every rental found before is found after. */
  lemma AppendRentalOk(rentals: seq<RentalRow>, nextRentalId: int, clients: map<int, string>, row: RentalRow)
    requires RentalsOk(rentals, nextRentalId, clients)
    requires row.id == nextRentalId && row.header.clientId in clients
    ensures RentalsOk(rentals + [row], nextRentalId + 1, clients)
    ensures forall id :: HasRental(rentals, id) ==> HasRental(rentals + [row], id)
    ensures HasRental(rentals + [row], nextRentalId)
  {
    var rs := rentals + [row];
    assert rs[|rentals|] == row;
    forall id | HasRental(rentals, id)
      ensures HasRental(rs, id)
    {
      var m :| 0 <= m < |rentals| && rentals[m].id == id;
      assert rs[m] == rentals[m];
    }
  }

  /** Inserting the item rows of an existing rental, numbered from the next
      item id, keeps the items valid. */
  lemma AppendItemsOk(items: seq<ItemRow>, nextItemId: int, equipments: map<int, string>,
                      rentals: seq<RentalRow>, rentalId: int, xs: seq<RentalDraftItem>)
    requires ItemsOk(items, nextItemId, equipments, rentals)
    requires xs != [] ==> HasRental(rentals, rentalId)
    requires forall k :: 0 <= k < |xs| ==> xs[k].equipmentId in equipments
    ensures ItemsOk(items + ItemRowsOf(rentalId, xs, nextItemId), nextItemId + |xs|, equipments, rentals)
  {
    var added := ItemRowsOf(rentalId, xs, nextItemId);
    var all := items + added;
    ItemRowsOfIndex(rentalId, xs, nextItemId);
    forall k | 0 <= k < |all|
      ensures 1 <= all[k].id < nextItemId + |xs| && all[k].equipmentId in equipments
      ensures HasRental(rentals, all[k].rentalId)
    {
      if k >= |items| {
        assert all[k] == added[k - |items|];
      }
    }
    forall i, j | 0 <= i < j < |all|
      ensures all[i].id < all[j].id
    {
      if i >= |items| {
        assert all[i] == added[i - |items|] && all[j] == added[j - |items|];
      } else if j >= |items| {
        assert all[j] == added[j - |items|];
      }
    }
  }

  /** Deleting one rental's items keeps the others in ascending id order. */
  lemma {:induction false} RemoveItemsOfAscending(rows: seq<ItemRow>, rentalId: int)
    requires IdsAscending(rows)
    ensures IdsAscending(RemoveItemsOf(rows, rentalId))
    decreases |rows|
  {
    if rows != [] {
      var init := rows[..|rows| - 1];
      RemoveItemsOfAscending(init, rentalId);
      RemoveItemsOfMembers(init, rentalId);
      var rest := RemoveItemsOf(init, rentalId);
      forall i | 0 <= i < |rest|
        ensures rest[i].id < rows[|rows| - 1].id
      {
        assert rest[i] in init;
      }
    }
  }

  /** Deleting one rental's items keeps the items valid. */
  lemma RemoveItemsOk(items: seq<ItemRow>, nextItemId: int, equipments: map<int, string>,
                      rentals: seq<RentalRow>, rentalId: int)
    requires ItemsOk(items, nextItemId, equipments, rentals)
    ensures ItemsOk(RemoveItemsOf(items, rentalId), nextItemId, equipments, rentals)
  {
    var kept := RemoveItemsOf(items, rentalId);
    RemoveItemsOfAscending(items, rentalId);
    RemoveItemsOfMembers(items, rentalId);
    forall k | 0 <= k < |kept|
      ensures 1 <= kept[k].id < nextItemId && kept[k].equipmentId in equipments
      ensures HasRental(rentals, kept[k].rentalId)
    {
      assert kept[k] in items;
    }
  }

  /** The header update finds the same rows the table had. */
  lemma UpdateHeaderKeeps(rentals: seq<RentalRow>, id: int, header: RentalHeader, now: string)
    ensures forall other :: HasRental(UpdateHeader(rentals, id, header, now), other) <==> HasRental(rentals, other)
  {
    var u := UpdateHeader(rentals, id, header, now);
    forall other | HasRental(rentals, other)
      ensures HasRental(u, other)
    {
      var m :| 0 <= m < |rentals| && rentals[m].id == other;
      assert u[m].id == other;
    }
    forall other | HasRental(u, other)
      ensures HasRental(rentals, other)
    {
      var m :| 0 <= m < |u| && u[m].id == other;
      assert rentals[m].id == other;
    }
  }

  /** Overwriting a header with one that names an existing client keeps
      the rentals valid. */
  lemma UpdateHeaderOk(rentals: seq<RentalRow>, nextRentalId: int, clients: map<int, string>,
                       id: int, header: RentalHeader, now: string)
    requires RentalsOk(rentals, nextRentalId, clients)
    requires HasRental(rentals, id) ==> header.clientId in clients
    ensures RentalsOk(UpdateHeader(rentals, id, header, now), nextRentalId, clients)
  {
  }

  /** A committed create keeps the invariant. */
  lemma CreatePreserves(rentals: seq<RentalRow>, items: seq<ItemRow>, nextRentalId: int, nextItemId: int,
                        clients: map<int, string>, equipments: map<int, string>,
                        input: RentalCreateInput, failAt: Option<nat>, now: string)
    requires Tables(rentals, items, nextRentalId, nextItemId, clients, equipments)
    requires CreateSucceeds(input, failAt, clients, equipments)
    ensures Tables(rentals + [RentalRow(nextRentalId, HeaderOf(input), now, now)],
                   items + ItemRowsOf(nextRentalId, input.items, nextItemId),
                   nextRentalId + 1, nextItemId + |input.items|, clients, equipments)
  {
    var row := RentalRow(nextRentalId, HeaderOf(input), now, now);
    HeaderOfInput(input);
    AppendRentalOk(rentals, nextRentalId, clients, row);
    ItemsOkMoreRentals(items, nextItemId, equipments, rentals, rentals + [row]);
    AppendItemsOk(items, nextItemId, equipments, rentals + [row], nextRentalId, input.items);
  }

  /** A committed update keeps the invariant. */
  lemma UpdatePreserves(rentals: seq<RentalRow>, items: seq<ItemRow>, nextRentalId: int, nextItemId: int,
                        clients: map<int, string>, equipments: map<int, string>,
                        rentalId: int, input: RentalCreateInput, failAt: Option<nat>, now: string)
    requires Tables(rentals, items, nextRentalId, nextItemId, clients, equipments)
    requires UpdateSucceeds(rentals, rentalId, input, failAt, clients, equipments)
    ensures Tables(UpdateHeader(rentals, rentalId, HeaderOf(input), now),
                   RemoveItemsOf(items, rentalId) + ItemRowsOf(rentalId, input.items, nextItemId),
                   nextRentalId, nextItemId + |input.items|, clients, equipments)
  {
    var rs := UpdateHeader(rentals, rentalId, HeaderOf(input), now);
    HeaderOfInput(input);
    UpdateHeaderOk(rentals, nextRentalId, clients, rentalId, HeaderOf(input), now);
    UpdateHeaderKeeps(rentals, rentalId, HeaderOf(input), now);
    RemoveItemsOk(items, nextItemId, equipments, rentals, rentalId);
    ItemsOkMoreRentals(RemoveItemsOf(items, rentalId), nextItemId, equipments, rentals, rs);
    if input.items != [] {
      assert HasRental(rentals, rentalId);
    }
    AppendItemsOk(RemoveItemsOf(items, rentalId), nextItemId, equipments, rs, rentalId, input.items);
  }

  /** After a committed create, the new rental's items read back as the
      input items, in order, under their equipment's current names. */
  lemma CreateThenItems(rentals: seq<RentalRow>, items: seq<ItemRow>, nextRentalId: int, nextItemId: int,
                        clients: map<int, string>, equipments: map<int, string>, input: RentalCreateInput)
    requires Tables(rentals, items, nextRentalId, nextItemId, clients, equipments)
    requires forall k :: 0 <= k < |input.items| ==> input.items[k].equipmentId in equipments
    ensures JoinEquipment(ItemsOfRental(items + ItemRowsOf(nextRentalId, input.items, nextItemId), nextRentalId),
                          equipments)
            == WithLiveNames(input.items, equipments)
  {
    var added := ItemRowsOf(nextRentalId, input.items, nextItemId);
    forall k | 0 <= k < |items|
      ensures items[k].rentalId != nextRentalId
    {
      assert ItemsOk(items, nextItemId, equipments, rentals);
      assert HasRental(rentals, items[k].rentalId);
      var m :| 0 <= m < |rentals| && rentals[m].id == items[k].rentalId;
    }
    ItemsOfRentalNone(items, nextRentalId);
    ItemRowsOfIndex(nextRentalId, input.items, nextItemId);
    ItemsOfRentalAll(added, nextRentalId);
    ItemsOfRentalAppend(items, added, nextRentalId);
    assert [] + added == added;
    JoinEquipmentOfItems(nextRentalId, input.items, nextItemId, equipments);
  }

  /** After a committed update, the rental's items are exactly the input
      items, in order: none of the old ones survive. */
  lemma UpdateThenItems(items: seq<ItemRow>, nextItemId: int, equipments: map<int, string>,
                        rentalId: int, input: RentalCreateInput)
    requires forall k :: 0 <= k < |input.items| ==> input.items[k].equipmentId in equipments
    ensures JoinEquipment(ItemsOfRental(RemoveItemsOf(items, rentalId) + ItemRowsOf(rentalId, input.items, nextItemId),
                                        rentalId), equipments)
            == WithLiveNames(input.items, equipments)
  {
    var kept := RemoveItemsOf(items, rentalId);
    var added := ItemRowsOf(rentalId, input.items, nextItemId);
    RemoveItemsOfMembers(items, rentalId);
    forall k | 0 <= k < |kept|
      ensures kept[k].rentalId != rentalId
    {
      assert kept[k] in kept;
    }
    ItemsOfRentalNone(kept, rentalId);
    ItemRowsOfIndex(rentalId, input.items, nextItemId);
    ItemsOfRentalAll(added, rentalId);
    ItemsOfRentalAppend(kept, added, rentalId);
    assert [] + added == added;
    JoinEquipmentOfItems(rentalId, input.items, nextItemId, equipments);
  }

  /** Updating a rental that does not exist fails as soon as it has items
      to insert; without items it goes through and changes nothing. */
  lemma UpdateUnknown(rentals: seq<RentalRow>, items: seq<ItemRow>, nextRentalId: int, nextItemId: int,
                      clients: map<int, string>, equipments: map<int, string>,
                      rentalId: int, input: RentalCreateInput, failAt: Option<nat>, now: string)
    requires Tables(rentals, items, nextRentalId, nextItemId, clients, equipments)
    requires !HasRental(rentals, rentalId)
    ensures input.items != [] ==> !UpdateSucceeds(rentals, rentalId, input, failAt, clients, equipments)
    ensures input.items == [] ==>
      (UpdateSucceeds(rentals, rentalId, input, failAt, clients, equipments) <==> Passes(failAt, 0) && Passes(failAt, 1))
    ensures UpdateHeader(rentals, rentalId, HeaderOf(input), now) == rentals
    ensures RemoveItemsOf(items, rentalId) == items
  {
    forall k | 0 <= k < |items|
      ensures items[k].rentalId != rentalId
    {
    }
    RemoveItemsOfNone(items, rentalId);
    if input.items != [] {
      assert !(input.items != [] ==> HasRental(rentals, rentalId));
    }
    var u := UpdateHeader(rentals, rentalId, HeaderOf(input), now);
    forall k | 0 <= k < |rentals|
      ensures u[k] == rentals[k]
    {
      assert rentals[k].id != rentalId;
    }
  }

  /** The `rentals` and `rental_items` tables, with the AUTOINCREMENT
      counters (sqlite_sequence) that a rollback restores too. */
  class RentalStore {
    var rentals: seq<RentalRow>
    var items: seq<ItemRow>
    var nextRentalId: int
    var nextItemId: int
    const clients: map<int, string>
    const equipments: map<int, string>

    predicate Valid()
      reads this
    {
      Tables(rentals, items, nextRentalId, nextItemId, clients, equipments)
    }

    /** Empty rental tables over the given clients and equipment. */
    constructor(clients: map<int, string>, equipments: map<int, string>)
      ensures Valid()
      ensures rentals == [] && items == [] && nextRentalId == 1 && nextItemId == 1
      ensures this.clients == clients && this.equipments == equipments
    {
      this.clients := clients;
      this.equipments := equipments;
      rentals := [];
      items := [];
      nextRentalId := 1;
      nextItemId := 1;
    }

    /** `create`: in one transaction, insert the header computed from the
        input and then one item row per input item. On success the new id
        is returned; on any failure the transaction is rolled back and
        nothing changes (the caller sees the error as None). The insertId
        check cannot fail: AUTOINCREMENT ids start at 1. */
    method Create(input: RentalCreateInput, now: string, failAt: Option<nat>) returns (result: Option<int>)
      requires Valid()
      modifies this
      ensures Valid()
      ensures result.Some? <==> CreateSucceeds(input, failAt, clients, equipments)
      ensures result.Some? ==>
        result.value == old(nextRentalId) && result.value >= 1
        && rentals == old(rentals) + [RentalRow(old(nextRentalId), HeaderOf(input), now, now)]
        && items == old(items) + ItemRowsOf(old(nextRentalId), input.items, old(nextItemId))
        && nextRentalId == old(nextRentalId) + 1 && nextItemId == old(nextItemId) + |input.items|
      ensures result.None? ==>
        rentals == old(rentals) && items == old(items)
        && nextRentalId == old(nextRentalId) && nextItemId == old(nextItemId)
    {
      // BEGIN TRANSACTION
      var savedRentals, savedItems := rentals, items;
      var savedNextRental, savedNextItem := nextRentalId, nextItemId;
      if failAt == Some(0) || input.clientId !in clients {
        return None;
      }
      var rentalId := nextRentalId;
      var row := RentalRow(rentalId, HeaderOf(input), now, now);
      rentals := rentals + [row];
      nextRentalId := nextRentalId + 1;
      assert rentals[|savedRentals|] == row;
      var ok := InsertItems(rentalId, input.items, failAt, 1);
      if !ok {
        // ROLLBACK
        rentals, items := savedRentals, savedItems;
        nextRentalId, nextItemId := savedNextRental, savedNextItem;
        return None;
      }
      // COMMIT
      CreatePreserves(savedRentals, savedItems, savedNextRental, savedNextItem, clients, equipments, input, failAt, now);
      return Some(rentalId);
    }

    /** The loop of item inserts create and update share: one INSERT per
        item, statement number `offset + k` for item `k`, each needing the
        rental and the item's equipment to exist. It stops at the first
        statement that fails, leaving the rows before it written; the
        caller rolls back. */
    method InsertItems(rentalId: int, xs: seq<RentalDraftItem>, failAt: Option<nat>, offset: nat) returns (ok: bool)
      modifies this
      ensures rentals == old(rentals) && nextRentalId == old(nextRentalId)
      ensures ok <==> PassesFrom(failAt, offset, |xs|) && (xs != [] ==> HasRental(rentals, rentalId))
                      && forall k :: 0 <= k < |xs| ==> xs[k].equipmentId in equipments
      ensures ok ==> items == old(items) + ItemRowsOf(rentalId, xs, old(nextItemId))
                     && nextItemId == old(nextItemId) + |xs|
    {
      var k := 0;
      while k < |xs|
        invariant 0 <= k <= |xs|
        invariant rentals == old(rentals) && nextRentalId == old(nextRentalId)
        invariant items == old(items) + ItemRowsOf(rentalId, xs[..k], old(nextItemId))
        invariant nextItemId == old(nextItemId) + k
        invariant k > 0 ==> HasRental(rentals, rentalId)
        invariant PassesFrom(failAt, offset, k)
        invariant forall j :: 0 <= j < k ==> xs[j].equipmentId in equipments
      {
        var item := xs[k];
        if failAt == Some(k + offset) || item.equipmentId !in equipments || RowIndex(rentals, rentalId).None? {
          return false;
        }
        assert xs[..k + 1][..k] == xs[..k];
        items := items + [ItemRow(nextItemId, rentalId, item.equipmentId, item.quantity, item.unitPrice, BuildItemTotal(item))];
        nextItemId := nextItemId + 1;
        k := k + 1;
      }
      assert xs[..k] == xs;
      return true;
    }

    /** `update`: in one transaction, overwrite the header, delete every
        item of the rental and insert the input items. On any failure the
        transaction is rolled back and nothing changes. */
    method Update(rentalId: int, input: RentalCreateInput, now: string, failAt: Option<nat>) returns (ok: bool)
      requires Valid()
      modifies this
      ensures Valid()
      ensures ok <==> UpdateSucceeds(old(rentals), rentalId, input, failAt, clients, equipments)
      ensures nextRentalId == old(nextRentalId)
      ensures ok ==>
        rentals == UpdateHeader(old(rentals), rentalId, HeaderOf(input), now)
        && items == RemoveItemsOf(old(items), rentalId) + ItemRowsOf(rentalId, input.items, old(nextItemId))
        && nextItemId == old(nextItemId) + |input.items|
      ensures !ok ==> rentals == old(rentals) && items == old(items) && nextItemId == old(nextItemId)
    {
      // BEGIN TRANSACTION
      var savedRentals, savedItems, savedNextItem := rentals, items, nextItemId;
      ok := UpdateStatements(rentalId, input, now, failAt);
      if !ok {
        // ROLLBACK
        rentals, items, nextItemId := savedRentals, savedItems, savedNextItem;
        return false;
      }
      // COMMIT
      UpdatePreserves(savedRentals, savedItems, nextRentalId, savedNextItem, clients, equipments, rentalId, input, failAt, now);
    }

    /** The statements of update's transaction: the header update
        (statement 0), then the item statements. It stops at the first
        statement that fails; the caller rolls back. */
    method UpdateStatements(rentalId: int, input: RentalCreateInput, now: string, failAt: Option<nat>) returns (ok: bool)
      modifies this
      ensures nextRentalId == old(nextRentalId)
      ensures ok <==> UpdateSucceeds(old(rentals), rentalId, input, failAt, clients, equipments)
      ensures ok ==>
        rentals == UpdateHeader(old(rentals), rentalId, HeaderOf(input), now)
        && items == RemoveItemsOf(old(items), rentalId) + ItemRowsOf(rentalId, input.items, old(nextItemId))
        && nextItemId == old(nextItemId) + |input.items|
    {
      if failAt == Some(0) || (RowIndex(rentals, rentalId).Some? && input.clientId !in clients) {
        return false;
      }
      var header := HeaderOf(input);
      var before := rentals;
      rentals := UpdateHeader(rentals, rentalId, header, now);
      assert HasRental(rentals, rentalId) == HasRental(before, rentalId) by {
        UpdateHeaderKeeps(before, rentalId, header, now);
      }
      ok := ReplaceItems(rentalId, input.items, failAt);
    }

    /** update's item statements: delete every item of the rental
        (statement 1), then insert the new ones from statement 2 on. */
    method ReplaceItems(rentalId: int, xs: seq<RentalDraftItem>, failAt: Option<nat>) returns (ok: bool)
      modifies this
      ensures rentals == old(rentals) && nextRentalId == old(nextRentalId)
      ensures ok <==> Passes(failAt, 1) && PassesFrom(failAt, 2, |xs|) && (xs != [] ==> HasRental(rentals, rentalId))
                      && forall k :: 0 <= k < |xs| ==> xs[k].equipmentId in equipments
      ensures ok ==> items == RemoveItemsOf(old(items), rentalId) + ItemRowsOf(rentalId, xs, old(nextItemId))
                     && nextItemId == old(nextItemId) + |xs|
    {
      if failAt == Some(1) {
        return false;
      }
      items := RemoveItemsOf(items, rentalId);
      ok := InsertItems(rentalId, xs, failAt, 2);
    }

    /** `getById`: None for an unknown id; otherwise the rental with its
        items in item order, and, when it is an expired quote, the write
        that cancels it. */
    method GetById(rentalId: int, today: Date, now: string) returns (details: Option<RentalDetails>)
      requires Valid()
      modifies this
      ensures Valid()
      ensures items == old(items) && nextRentalId == old(nextRentalId) && nextItemId == old(nextItemId)
      ensures details.None? <==> !HasRental(old(rentals), rentalId)
      ensures details.None? ==> rentals == old(rentals)
      ensures details.Some? ==>
        var row := old(rentals)[RowIndex(old(rentals), rentalId).value];
        details.value == DetailsOf(row, JoinEquipment(ItemsOfRental(items, rentalId), equipments), today)
        && rentals == (if RowExpired(row, today) then CancelId(old(rentals), rentalId, now) else old(rentals))
    {
      var index := RowIndex(rentals, rentalId);
      if index.None? {
        return None;
      }
      var row := rentals[index.value];
      var itemRows := JoinEquipment(ItemsOfRental(items, rentalId), equipments);
      var status := NormalizeStatus(row.header.status);
      if IsQuoteExpired(row.header.quoteValidUntil, status, today) {
        TablesOfSameKeys(rentals, CancelId(rentals, rentalId, now), items, nextRentalId, nextItemId, clients, equipments);
        rentals := CancelId(rentals, rentalId, now);
      }
      return Some(DetailsOf(row, itemRows, today));
    }

    /** `list`: every rental newest first, then the expiry sweep: each
        expired quote is written as canceled and returned as canceled. */
    method List(today: Date, now: string) returns (result: seq<RentalListItem>)
      requires Valid()
      modifies this
      ensures Valid()
      ensures items == old(items) && nextRentalId == old(nextRentalId) && nextItemId == old(nextItemId)
      ensures result == ApplyExpiry(ListQuery(old(rentals), items, clients, today))
      ensures rentals == SweepRows(old(rentals), today, now)
    {
      var rows := ListQuery(rentals, items, clients, today);
      var expiredQuoteIds := ExpiredIds(rows);
      CancelEach(expiredQuoteIds, now);
      AscendingUnique(old(rentals));
      CancelExpiredIsSweep(old(rentals), items, clients, today, now);
      SweepKeepsTables(old(rentals), items, nextRentalId, nextItemId, clients, equipments, today, now);
      result := ApplyExpiry(rows);
    }

    /** list's write loop: one `UPDATE ... SET status = 'canceled'` per id. */
    method CancelEach(ids: seq<int>, now: string)
      modifies this
      ensures rentals == CancelAll(old(rentals), ids, now)
      ensures items == old(items) && nextRentalId == old(nextRentalId) && nextItemId == old(nextItemId)
    {
      var i := 0;
      while i < |ids|
        invariant 0 <= i <= |ids|
        invariant rentals == CancelAll(old(rentals), ids[..i], now)
        invariant items == old(items) && nextRentalId == old(nextRentalId) && nextItemId == old(nextItemId)
      {
        CancelAllStep(old(rentals), ids, i, now);
        rentals := CancelId(rentals, ids[i], now);
        i := i + 1;
      }
      assert ids[..i] == ids;
    }

    /** `count`: the number of rentals. */
    method Count() returns (n: int)
      ensures n == |rentals|
    {
      n := |rentals|;
    }
  }
}
