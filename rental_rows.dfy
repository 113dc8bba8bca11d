/** The rows of the `rentals` and `rental_items` tables and the queries the
    rental service runs over them: the items of one rental joined with
    their equipment, the rental list joined with its clients and ordered by
    creation time, newest first, and the writes that cancel expired quotes. */
module RentalRows {
  import opened Wrappers
  import opened Calendar
  import opened Domain
  import opened RentalRules

  /** A `rentals` row: its id, the columns create and update write, and the
      two timestamps (opaque ISO strings). */
  datatype RentalRow = RentalRow(id: int, header: RentalHeader, createdAt: string, updatedAt: string)

  /** A `rental_items` row. */
  datatype ItemRow = ItemRow(
    id: int, rentalId: int, equipmentId: int, quantity: int, unitPrice: real, lineTotal: real)

  /** `RentalListItem`: a row of the rental list. */
  datatype RentalListItem = RentalListItem(
    id: int,
    clientId: int,
    clientName: string,
    startDate: string,
    startTime: string,
    endDate: string,
    endTime: string,
    deliveryMode: DeliveryMode,
    deliveryAddress: Option<string>,
    freightValue: real,
    currency: CurrencyCode,
    subtotal: real,
    total: real,
    status: RentalStatus,
    quoteValidUntil: Option<string>,
    quoteExpired: bool,
    notes: Option<string>,
    itemCount: int,
    createdAt: string)

  /** `RentalDetails`: one rental with its items. */
  datatype RentalDetails = RentalDetails(
    id: int,
    clientId: int,
    startDate: string,
    startTime: string,
    endDate: string,
    endTime: string,
    deliveryMode: DeliveryMode,
    deliveryAddress: Option<string>,
    freightValue: real,
    currency: CurrencyCode,
    subtotal: real,
    total: real,
    status: RentalStatus,
    quoteValidUntil: Option<string>,
    notes: Option<string>,
    createdAt: string,
    updatedAt: string,
    items: seq<RentalDraftItem>)

  // ---------------------------------------------------------------------
  // Item rows

  /** The item rows create and update insert for `items`, one per item in
      order, numbered by AUTOINCREMENT from `firstId` on. */
  function ItemRowsOf(rentalId: int, items: seq<RentalDraftItem>, firstId: int): (rows: seq<ItemRow>)
    decreases |items|
  {
    if items == [] then []
    else
      var item := items[|items| - 1];
      ItemRowsOf(rentalId, items[..|items| - 1], firstId)
        + [ItemRow(firstId + |items| - 1, rentalId, item.equipmentId, item.quantity, item.unitPrice, BuildItemTotal(item))]
  }

  /** Row `k` belongs to the rental, has id `firstId + k`, copies item `k`
      and stores its quantity times its unit price as the line total. */
  lemma {:induction false} ItemRowsOfIndex(rentalId: int, items: seq<RentalDraftItem>, firstId: int)
    ensures |ItemRowsOf(rentalId, items, firstId)| == |items|
    ensures forall k :: 0 <= k < |items| ==>
      var r := ItemRowsOf(rentalId, items, firstId)[k];
      r.id == firstId + k && r.rentalId == rentalId && r.equipmentId == items[k].equipmentId
      && r.quantity == items[k].quantity && r.unitPrice == items[k].unitPrice
      && r.lineTotal == items[k].quantity as real * items[k].unitPrice
    decreases |items|
  {
    if items != [] {
      ItemRowsOfIndex(rentalId, items[..|items| - 1], firstId);
    }
  }

  /** The line totals of item rows, added up. */
  function SumLineTotals(rows: seq<ItemRow>): real
    decreases |rows|
  {
    if rows == [] then 0.0 else SumLineTotals(rows[..|rows| - 1]) + rows[|rows| - 1].lineTotal
  }

  /** The stored line totals add up to the stored subtotal. */
  lemma {:induction false} SumLineTotalsOfItems(rentalId: int, items: seq<RentalDraftItem>, firstId: int)
    ensures SumLineTotals(ItemRowsOf(rentalId, items, firstId)) == Subtotal(items)
    decreases |items|
  {
    if items != [] {
      var prefix := ItemRowsOf(rentalId, items[..|items| - 1], firstId);
      var rows := ItemRowsOf(rentalId, items, firstId);
      assert rows[..|rows| - 1] == prefix;
      SumLineTotalsOfItems(rentalId, items[..|items| - 1], firstId);
    }
  }

  /** `WHERE ri.rental_id = ?`: the item rows of one rental, in table order. */
  function ItemsOfRental(rows: seq<ItemRow>, rentalId: int): (r: seq<ItemRow>)
    ensures |r| <= |rows|
    decreases |rows|
  {
    if rows == [] then []
    else
      var rest := ItemsOfRental(rows[..|rows| - 1], rentalId);
      if rows[|rows| - 1].rentalId == rentalId then rest + [rows[|rows| - 1]] else rest
  }

  /** `DELETE FROM rental_items WHERE rental_id = ?`: the item rows of every
      other rental, in table order. */
  function RemoveItemsOf(rows: seq<ItemRow>, rentalId: int): (r: seq<ItemRow>)
    ensures |r| <= |rows|
    decreases |rows|
  {
    if rows == [] then []
    else
      var rest := RemoveItemsOf(rows[..|rows| - 1], rentalId);
      if rows[|rows| - 1].rentalId == rentalId then rest else rest + [rows[|rows| - 1]]
  }

  /** The rows ItemsOfRental keeps are exactly the table's rows of that rental. */
  lemma {:induction false} ItemsOfRentalMembers(rows: seq<ItemRow>, rentalId: int)
    ensures forall x :: x in ItemsOfRental(rows, rentalId) <==> x in rows && x.rentalId == rentalId
    decreases |rows|
  {
    if rows != [] {
      ItemsOfRentalMembers(rows[..|rows| - 1], rentalId);
      assert rows == rows[..|rows| - 1] + [rows[|rows| - 1]];
    }
  }

  /** The rows RemoveItemsOf keeps are exactly the table's rows of the
      other rentals. */
  lemma {:induction false} RemoveItemsOfMembers(rows: seq<ItemRow>, rentalId: int)
    ensures forall x :: x in RemoveItemsOf(rows, rentalId) <==> x in rows && x.rentalId != rentalId
    decreases |rows|
  {
    if rows != [] {
      RemoveItemsOfMembers(rows[..|rows| - 1], rentalId);
      assert rows == rows[..|rows| - 1] + [rows[|rows| - 1]];
    }
  }

  /** Selecting one rental's rows distributes over concatenation. */
  lemma {:induction false} ItemsOfRentalAppend(a: seq<ItemRow>, b: seq<ItemRow>, rentalId: int)
    ensures ItemsOfRental(a + b, rentalId) == ItemsOfRental(a, rentalId) + ItemsOfRental(b, rentalId)
    decreases |b|
  {
    if b == [] {
      assert a + b == a;
    } else {
      assert (a + b)[..|a + b| - 1] == a + b[..|b| - 1];
      ItemsOfRentalAppend(a, b[..|b| - 1], rentalId);
    }
  }

  /** A table without rows of the rental selects nothing. */
  lemma {:induction false} ItemsOfRentalNone(rows: seq<ItemRow>, rentalId: int)
    requires forall k :: 0 <= k < |rows| ==> rows[k].rentalId != rentalId
    ensures ItemsOfRental(rows, rentalId) == []
    decreases |rows|
  {
    if rows != [] {
      ItemsOfRentalNone(rows[..|rows| - 1], rentalId);
    }
  }

  /** Deleting the rows of a rental the table holds no rows of changes
      nothing. */
  lemma {:induction false} RemoveItemsOfNone(rows: seq<ItemRow>, rentalId: int)
    requires forall k :: 0 <= k < |rows| ==> rows[k].rentalId != rentalId
    ensures RemoveItemsOf(rows, rentalId) == rows
    decreases |rows|
  {
    if rows != [] {
      RemoveItemsOfNone(rows[..|rows| - 1], rentalId);
    }
  }

  /** Every row of a rental is selected for that rental. */
  lemma {:induction false} ItemsOfRentalAll(rows: seq<ItemRow>, rentalId: int)
    requires forall k :: 0 <= k < |rows| ==> rows[k].rentalId == rentalId
    ensures ItemsOfRental(rows, rentalId) == rows
    decreases |rows|
  {
    if rows != [] {
      ItemsOfRentalAll(rows[..|rows| - 1], rentalId);
    }
  }

  /** Rows in strictly increasing id order. */
  predicate IdsAscending(rows: seq<ItemRow>) {
    forall i, j :: 0 <= i < j < |rows| ==> rows[i].id < rows[j].id
  }

  /** Selecting keeps ascending id order, so the query's `ORDER BY ri.id
      ASC` gives the rows in table order. */
  lemma {:induction false} ItemsOfRentalAscending(rows: seq<ItemRow>, rentalId: int)
    requires IdsAscending(rows)
    ensures IdsAscending(ItemsOfRental(rows, rentalId))
    decreases |rows|
  {
    if rows != [] {
      var init := rows[..|rows| - 1];
      ItemsOfRentalAscending(init, rentalId);
      ItemsOfRentalMembers(init, rentalId);
      var rest := ItemsOfRental(init, rentalId);
      forall i | 0 <= i < |rest|
        ensures rest[i].id < rows[|rows| - 1].id
      {
        assert rest[i] in init;
      }
    }
  }

  /** `INNER JOIN equipments e ON e.id = ri.equipment_id`, read back as draft
      items: the equipment's current name, the stored quantity and price.
      Rows whose equipment is gone are dropped by the join. */
  function JoinEquipment(rows: seq<ItemRow>, equipments: map<int, string>): (r: seq<RentalDraftItem>)
    ensures |r| <= |rows|
    decreases |rows|
  {
    if rows == [] then []
    else
      var rest := JoinEquipment(rows[..|rows| - 1], equipments);
      var row := rows[|rows| - 1];
      if row.equipmentId in equipments then
        rest + [RentalDraftItem(row.equipmentId, equipments[row.equipmentId], row.quantity, row.unitPrice)]
      else rest
  }

  /** The draft items with each name replaced by the equipment's current one. */
  function WithLiveNames(items: seq<RentalDraftItem>, equipments: map<int, string>): (r: seq<RentalDraftItem>)
    requires forall k :: 0 <= k < |items| ==> items[k].equipmentId in equipments
    ensures |r| == |items|
  {
    seq(|items|, k requires 0 <= k < |items| => items[k].(equipmentName := equipments[items[k].equipmentId]))
  }

  /** Reading back the rows inserted for some items gives those items,
      in order, under their equipment's current names. */
  lemma {:induction false} JoinEquipmentOfItems(rentalId: int, items: seq<RentalDraftItem>, firstId: int,
                                                equipments: map<int, string>)
    requires forall k :: 0 <= k < |items| ==> items[k].equipmentId in equipments
    ensures JoinEquipment(ItemRowsOf(rentalId, items, firstId), equipments) == WithLiveNames(items, equipments)
    decreases |items|
  {
    if items != [] {
      var init := items[..|items| - 1];
      var rows := ItemRowsOf(rentalId, items, firstId);
      assert rows[..|rows| - 1] == ItemRowsOf(rentalId, init, firstId);
      JoinEquipmentOfItems(rentalId, init, firstId, equipments);
      assert WithLiveNames(items, equipments) == WithLiveNames(init, equipments) + [WithLiveNames(items, equipments)[|items| - 1]];
    }
  }

  // ---------------------------------------------------------------------
  // Rental rows

  /** Rows in strictly increasing id order. */
  predicate RowIdsAscending(rows: seq<RentalRow>) {
    forall i, j :: 0 <= i < j < |rows| ==> rows[i].id < rows[j].id
  }

  /** Some row has this id. */
  predicate HasRental(rows: seq<RentalRow>, id: int) {
    exists k :: 0 <= k < |rows| && rows[k].id == id
  }

  /** The position of the row with this id, if any (the first one). */
  function RowIndex(rows: seq<RentalRow>, id: int): (r: Option<nat>)
    ensures r.Some? ==> r.value < |rows| && rows[r.value].id == id
    ensures r.None? <==> !HasRental(rows, id)
    decreases |rows|
  {
    if rows == [] then None
    else if rows[0].id == id then Some(0)
    else
      match RowIndex(rows[1..], id)
      case None =>
        assert forall k :: 1 <= k < |rows| ==> rows[k] == rows[1..][k - 1];
        None
      case Some(k) => Some(k + 1)
  }

  /** The same row with `status = 'canceled'` and a new `updated_at`. */
  function Cancel(row: RentalRow, now: string): RentalRow {
    row.(header := row.header.(status := StatusName(Canceled)), updatedAt := now)
  }

  /** `UPDATE rentals SET status = 'canceled', updated_at = ? WHERE id = ?`. */
  function CancelId(rows: seq<RentalRow>, id: int, now: string): (r: seq<RentalRow>)
    ensures |r| == |rows|
  {
    seq(|rows|, k requires 0 <= k < |rows| => if rows[k].id == id then Cancel(rows[k], now) else rows[k])
  }

  /** The same UPDATE, once for each of `ids`. */
  function CancelAll(rows: seq<RentalRow>, ids: seq<int>, now: string): (r: seq<RentalRow>)
    ensures |r| == |rows|
  {
    seq(|rows|, k requires 0 <= k < |rows| => if rows[k].id in ids then Cancel(rows[k], now) else rows[k])
  }

  /** Cancelling one more id extends the cancelled set by that id. */
  lemma CancelAllStep(rows: seq<RentalRow>, ids: seq<int>, i: nat, now: string)
    requires i < |ids|
    ensures CancelId(CancelAll(rows, ids[..i], now), ids[i], now) == CancelAll(rows, ids[..i + 1], now)
  {
    var a := CancelId(CancelAll(rows, ids[..i], now), ids[i], now);
    var b := CancelAll(rows, ids[..i + 1], now);
    forall k | 0 <= k < |rows|
      ensures a[k] == b[k]
    {
      assert rows[k].id in ids[..i + 1] <==> rows[k].id in ids[..i] || rows[k].id == ids[i];
    }
  }

  /** `UPDATE rentals SET ... WHERE id = ?` for create/update's columns. */
  function UpdateHeader(rows: seq<RentalRow>, id: int, header: RentalHeader, now: string): (r: seq<RentalRow>)
    ensures |r| == |rows|
  {
    seq(|rows|, k requires 0 <= k < |rows| =>
      if rows[k].id == id then rows[k].(header := header, updatedAt := now) else rows[k])
  }

  /** The cancel UPDATE: the row with that id reads as canceled with the new
      `updated_at`, and keeps its id, creation time and every other column;
      every other row is left as it was. */
  lemma CancelIdRows(rows: seq<RentalRow>, id: int, now: string)
    ensures forall k :: 0 <= k < |rows| && rows[k].id != id ==> CancelId(rows, id, now)[k] == rows[k]
    ensures forall k :: 0 <= k < |rows| && rows[k].id == id ==>
      var c := CancelId(rows, id, now)[k];
      c.id == id && c.createdAt == rows[k].createdAt && c.updatedAt == now
      && NormalizeStatus(c.header.status) == Canceled
      && c.header.(status := rows[k].header.status) == rows[k].header
  {
    NormalizeOfName(Pickup, BRL, Canceled);
  }

  /** The header UPDATE: the row with that id gets the new columns and
      `updated_at`, keeping its id and creation time; every other row is left
      as it was. */
  lemma UpdateHeaderRows(rows: seq<RentalRow>, id: int, header: RentalHeader, now: string)
    ensures forall k :: 0 <= k < |rows| && rows[k].id != id ==> UpdateHeader(rows, id, header, now)[k] == rows[k]
    ensures forall k :: 0 <= k < |rows| && rows[k].id == id ==>
      UpdateHeader(rows, id, header, now)[k] == RentalRow(id, header, rows[k].createdAt, now)
  {
  }

  /** A quote the list or getById would find expired. */
  predicate RowExpired(row: RentalRow, today: Date) {
    IsQuoteExpired(row.header.quoteValidUntil, NormalizeStatus(row.header.status), today)
  }

  /** Every expired quote cancelled, every other row as it was. */
  function SweepRows(rows: seq<RentalRow>, today: Date, now: string): (r: seq<RentalRow>)
    ensures |r| == |rows|
  {
    seq(|rows|, k requires 0 <= k < |rows| => if RowExpired(rows[k], today) then Cancel(rows[k], now) else rows[k])
  }

  /** After a sweep no row is an expired quote, and a second sweep on the
      same day, at any later timestamp, changes nothing. (A sweep on a later
      day may find more quotes expired.) */
  lemma SweepIdempotent(rows: seq<RentalRow>, today: Date, now: string, later: string)
    ensures forall k :: 0 <= k < |rows| ==> !RowExpired(SweepRows(rows, today, now)[k], today)
    ensures SweepRows(SweepRows(rows, today, now), today, later) == SweepRows(rows, today, now)
  {
    NormalizeOfName(Pickup, BRL, Canceled);
  }

  /** A sweep leaves ids, clients, dates, amounts and creation times alone:
      it changes only the status and `updated_at` of expired quotes. */
  lemma SweepKeeps(rows: seq<RentalRow>, today: Date, now: string)
    ensures forall k :: 0 <= k < |rows| ==>
      var r := SweepRows(rows, today, now)[k];
      r.id == rows[k].id && r.createdAt == rows[k].createdAt
      && r.header.(status := rows[k].header.status) == rows[k].header
      && (r != rows[k] ==> RowExpired(rows[k], today) && NormalizeStatus(r.header.status) == Canceled)
  {
    NormalizeOfName(Pickup, BRL, Canceled);
  }

  // ---------------------------------------------------------------------
  // The rental list

  /** A rental row with the name of its client, as the list query's
      `INNER JOIN clients` pairs them. */
  datatype ListEntry = ListEntry(row: RentalRow, clientName: string)

  /** SQLite's default (binary) order on text: `a` sorts at or before `b`. */
  predicate TextLe(a: string, b: string)
    decreases |a|
  {
    a == [] || (b != [] && (a[0] < b[0] || (a[0] == b[0] && TextLe(a[1..], b[1..]))))
  }

  lemma {:induction false} TextLeTotal(a: string, b: string)
    ensures TextLe(a, b) || TextLe(b, a)
    decreases |a|
  {
    if a != [] && b != [] && a[0] == b[0] {
      TextLeTotal(a[1..], b[1..]);
    }
  }

  lemma {:induction false} TextLeTrans(a: string, b: string, c: string)
    requires TextLe(a, b) && TextLe(b, c)
    ensures TextLe(a, c)
    decreases |a|
  {
    if a != [] && b != [] && c != [] && a[0] == b[0] && b[0] == c[0] {
      TextLeTrans(a[1..], b[1..], c[1..]);
    }
  }

  /** `ORDER BY r.created_at DESC`: newest first. */
  predicate SortedNewestFirst(s: seq<ListEntry>) {
    forall i, j :: 0 <= i < j < |s| ==> TextLe(s[j].row.createdAt, s[i].row.createdAt)
  }

  /** `x` placed after every entry created at or after it. */
  function InsertNewestFirst(x: ListEntry, s: seq<ListEntry>): (r: seq<ListEntry>)
    ensures multiset(r) == multiset(s) + multiset{x}
    decreases |s|
  {
    if s == [] then [x]
    else if !TextLe(x.row.createdAt, s[0].row.createdAt) then [x] + s
    else
      assert s == [s[0]] + s[1..];
      [s[0]] + InsertNewestFirst(x, s[1..])
  }

  lemma {:induction false} InsertNewestFirstSorted(x: ListEntry, s: seq<ListEntry>)
    requires SortedNewestFirst(s)
    ensures SortedNewestFirst(InsertNewestFirst(x, s))
    decreases |s|
  {
    if s == [] {
    } else if !TextLe(x.row.createdAt, s[0].row.createdAt) {
      TextLeTotal(x.row.createdAt, s[0].row.createdAt);
      forall j | 0 <= j < |s|
        ensures TextLe(s[j].row.createdAt, x.row.createdAt)
      {
        if j > 0 {
          TextLeTrans(s[j].row.createdAt, s[0].row.createdAt, x.row.createdAt);
        }
      }
      SortedCons(x, s);
    } else {
      var t := InsertNewestFirst(x, s[1..]);
      InsertNewestFirstSorted(x, s[1..]);
      forall j | 0 <= j < |t|
        ensures TextLe(t[j].row.createdAt, s[0].row.createdAt)
      {
        assert t[j] in multiset(t);
        if t[j] != x {
          assert t[j] in multiset(s[1..]);
          var m :| 0 <= m < |s[1..]| && s[1..][m] == t[j];
          assert s[m + 1] == t[j];
        }
      }
      SortedCons(s[0], t);
    }
  }

  /** An entry created at or after every entry of a sorted list can go in front. */
  lemma SortedCons(y: ListEntry, t: seq<ListEntry>)
    requires SortedNewestFirst(t)
    requires forall j :: 0 <= j < |t| ==> TextLe(t[j].row.createdAt, y.row.createdAt)
    ensures SortedNewestFirst([y] + t)
  {
    var r := [y] + t;
    forall i, j | 0 <= i < j < |r|
      ensures TextLe(r[j].row.createdAt, r[i].row.createdAt)
    {
      assert r[j] == t[j - 1];
      if i > 0 {
        assert r[i] == t[i - 1];
      }
    }
  }

  /** The list query's order: rows taken in table (id) order and each
      inserted after those created at or after it, so rows created at the
      same moment keep id order. */
  function SortNewestFirst(s: seq<ListEntry>): (r: seq<ListEntry>)
    ensures multiset(r) == multiset(s)
    decreases |s|
  {
    if s == [] then []
    else
      assert s == s[..|s| - 1] + [s[|s| - 1]];
      InsertNewestFirst(s[|s| - 1], SortNewestFirst(s[..|s| - 1]))
  }

  /** The list is ordered newest first and holds exactly the joined rows. */
  lemma {:induction false} SortNewestFirstSorted(s: seq<ListEntry>)
    ensures SortedNewestFirst(SortNewestFirst(s))
    ensures multiset(SortNewestFirst(s)) == multiset(s)
    decreases |s|
  {
    if s != [] {
      SortNewestFirstSorted(s[..|s| - 1]);
      InsertNewestFirstSorted(s[|s| - 1], SortNewestFirst(s[..|s| - 1]));
    }
  }

  /** `INNER JOIN clients c ON c.id = r.client_id`: the rows whose client
      exists, paired with its name, in table order. */
  function JoinClients(rows: seq<RentalRow>, clients: map<int, string>): (r: seq<ListEntry>)
    ensures |r| <= |rows|
    decreases |rows|
  {
    if rows == [] then []
    else
      var rest := JoinClients(rows[..|rows| - 1], clients);
      var row := rows[|rows| - 1];
      if row.header.clientId in clients then rest + [ListEntry(row, clients[row.header.clientId])] else rest
  }

  lemma {:induction false} JoinClientsMembers(rows: seq<RentalRow>, clients: map<int, string>)
    ensures forall e :: e in JoinClients(rows, clients) <==>
      e.row in rows && e.row.header.clientId in clients && e.clientName == clients[e.row.header.clientId]
    decreases |rows|
  {
    if rows != [] {
      JoinClientsMembers(rows[..|rows| - 1], clients);
      assert rows == rows[..|rows| - 1] + [rows[|rows| - 1]];
    }
  }

  /** One list row (the map over the query rows): enumerations normalised,
      expiry decided against today's date, the item count of the rental. */
  function ListItemOf(e: ListEntry, itemCount: int, today: Date): RentalListItem {
    var h := e.row.header;
    var status := NormalizeStatus(h.status);
    RentalListItem(
      e.row.id, h.clientId, e.clientName,
      h.startDate, h.startTime, h.endDate, h.endTime,
      NormalizeDeliveryMode(h.deliveryMode), h.deliveryAddress, h.freightValue,
      NormalizeCurrency(h.currency), h.subtotal, h.total,
      status, h.quoteValidUntil, IsQuoteExpired(h.quoteValidUntil, status, today),
      h.notes, itemCount, e.row.createdAt)
  }

  /** The list query and its mapping: every rental with an existing client,
      newest first, with its item count (`LEFT JOIN rental_items ... COUNT`). */
  function ListQuery(rows: seq<RentalRow>, items: seq<ItemRow>, clients: map<int, string>, today: Date): (r: seq<RentalListItem>)
    ensures |r| == |SortNewestFirst(JoinClients(rows, clients))|
  {
    var s := SortNewestFirst(JoinClients(rows, clients));
    seq(|s|, k requires 0 <= k < |s| => ListItemOf(s[k], |ItemsOfRental(items, s[k].row.id)|, today))
  }

  /** Entry k of the list is the k-th joined rental, newest first: its id,
      its client and that client's name, its normalised status, its item
      count and whether it is an expired quote. */
  lemma ListQueryEntries(rows: seq<RentalRow>, items: seq<ItemRow>, clients: map<int, string>, today: Date)
    ensures forall k :: 0 <= k < |ListQuery(rows, items, clients, today)| ==>
      var e := SortNewestFirst(JoinClients(rows, clients))[k];
      var l := ListQuery(rows, items, clients, today)[k];
      l.id == e.row.id && l.clientId == e.row.header.clientId && l.clientName == e.clientName
      && l.status == NormalizeStatus(e.row.header.status)
      && l.itemCount == |ItemsOfRental(items, e.row.id)|
      && l.quoteExpired == RowExpired(e.row, today)
    ensures forall k :: 0 <= k < |ListQuery(rows, items, clients, today)| ==>
      var l := ListQuery(rows, items, clients, today)[k];
      l.clientId in clients && l.clientName == clients[l.clientId]
      && exists i :: 0 <= i < |rows| && rows[i].id == l.id && rows[i].header.clientId == l.clientId
  {
    var j := JoinClients(rows, clients);
    var s := SortNewestFirst(j);
    var l := ListQuery(rows, items, clients, today);
    JoinClientsMembers(rows, clients);
    forall k | 0 <= k < |l|
      ensures l[k].clientId in clients && l[k].clientName == clients[l[k].clientId]
      ensures exists i :: 0 <= i < |rows| && rows[i].id == l[k].id && rows[i].header.clientId == l[k].clientId
    {
      assert s[k] in multiset(j);
      assert s[k] in j;
      var i :| 0 <= i < |rows| && rows[i] == s[k].row;
    }
  }

  /** `filter(status === 'quote' && quoteExpired).map(id)`. */
  function ExpiredIds(list: seq<RentalListItem>): (ids: seq<int>)
    decreases |list|
  {
    if list == [] then []
    else
      var rest := ExpiredIds(list[..|list| - 1]);
      var item := list[|list| - 1];
      if item.status == Quote && item.quoteExpired then rest + [item.id] else rest
  }

  lemma {:induction false} ExpiredIdsMembers(list: seq<RentalListItem>)
    ensures forall id :: id in ExpiredIds(list) <==>
      exists k :: 0 <= k < |list| && list[k].id == id && list[k].status == Quote && list[k].quoteExpired
    decreases |list|
  {
    if list != [] {
      var init := list[..|list| - 1];
      ExpiredIdsMembers(init);
      assert forall k :: 0 <= k < |init| ==> init[k] == list[k];
    }
  }

  /** The list as returned: each expired quote shown as canceled. */
  function ExpireListItem(item: RentalListItem): (r: RentalListItem)
    ensures r.status == Quote ==> !r.quoteExpired
  {
    if item.status == Quote && item.quoteExpired then item.(status := Canceled) else item
  }

  function ApplyExpiry(list: seq<RentalListItem>): (r: seq<RentalListItem>)
    ensures |r| == |list|
  {
    seq(|list|, k requires 0 <= k < |list| => ExpireListItem(list[k]))
  }

  /** Entry k of the returned list is entry k of the query: an expired quote
      becomes canceled and changes in nothing else; every other entry is
      returned as it is. */
  lemma ApplyExpiryEntries(list: seq<RentalListItem>)
    ensures forall k :: 0 <= k < |list| ==>
      var r := ApplyExpiry(list)[k];
      r.id == list[k].id && r == list[k].(status := r.status)
      && (r != list[k] <==> list[k].status == Quote && list[k].quoteExpired)
      && (r != list[k] ==> r.status == Canceled)
  {
  }

  /** No two rows share an id. */
  predicate UniqueRowIds(rows: seq<RentalRow>) {
    forall i, j :: 0 <= i < |rows| && 0 <= j < |rows| && rows[i].id == rows[j].id ==> i == j
  }

  /** When every rental's client exists, the ids the list finds expired are
      exactly those of the expired quotes in the table. */
  lemma ExpiredIdsOfRows(rows: seq<RentalRow>, items: seq<ItemRow>, clients: map<int, string>, today: Date, r: RentalRow)
    requires UniqueRowIds(rows)
    requires forall k :: 0 <= k < |rows| ==> rows[k].header.clientId in clients
    requires r in rows
    ensures r.id in ExpiredIds(ListQuery(rows, items, clients, today)) <==> RowExpired(r, today)
  {
    if r.id in ExpiredIds(ListQuery(rows, items, clients, today)) {
      ExpiredIdsSound(rows, items, clients, today, r);
    }
    if RowExpired(r, today) {
      ExpiredIdsComplete(rows, items, clients, today, r);
    }
  }

  /** An id the list finds expired is that of an expired quote. */
  lemma ExpiredIdsSound(rows: seq<RentalRow>, items: seq<ItemRow>, clients: map<int, string>, today: Date, r: RentalRow)
    requires UniqueRowIds(rows)
    requires r in rows
    requires r.id in ExpiredIds(ListQuery(rows, items, clients, today))
    ensures RowExpired(r, today)
  {
    var j := JoinClients(rows, clients);
    var s := SortNewestFirst(j);
    var l := ListQuery(rows, items, clients, today);
    JoinClientsMembers(rows, clients);
    ExpiredIdsMembers(l);
    var k :| 0 <= k < |l| && l[k].id == r.id && l[k].status == Quote && l[k].quoteExpired;
    assert s[k] in multiset(j);
    assert s[k].row in rows;
    var a :| 0 <= a < |rows| && rows[a] == s[k].row;
    var b :| 0 <= b < |rows| && rows[b] == r;
    assert s[k].row == r;
  }

  /** An expired quote whose client exists is found expired by the list. */
  lemma ExpiredIdsComplete(rows: seq<RentalRow>, items: seq<ItemRow>, clients: map<int, string>, today: Date, r: RentalRow)
    requires forall k :: 0 <= k < |rows| ==> rows[k].header.clientId in clients
    requires r in rows
    requires RowExpired(r, today)
    ensures r.id in ExpiredIds(ListQuery(rows, items, clients, today))
  {
    var j := JoinClients(rows, clients);
    var s := SortNewestFirst(j);
    var l := ListQuery(rows, items, clients, today);
    JoinClientsMembers(rows, clients);
    ExpiredIdsMembers(l);
    var e := ListEntry(r, clients[r.header.clientId]);
    assert e in multiset(s);
    var k :| 0 <= k < |s| && s[k] == e;
    assert l[k].id == r.id && l[k].status == Quote && l[k].quoteExpired;
  }

  /** The list's writes are the sweep: cancelling the ids the list finds
      expired cancels exactly the table's expired quotes. */
  lemma CancelExpiredIsSweep(rows: seq<RentalRow>, items: seq<ItemRow>, clients: map<int, string>, today: Date, now: string)
    requires UniqueRowIds(rows)
    requires forall k :: 0 <= k < |rows| ==> rows[k].header.clientId in clients
    ensures CancelAll(rows, ExpiredIds(ListQuery(rows, items, clients, today)), now) == SweepRows(rows, today, now)
  {
    forall k | 0 <= k < |rows|
      ensures CancelAll(rows, ExpiredIds(ListQuery(rows, items, clients, today)), now)[k] == SweepRows(rows, today, now)[k]
    {
      ExpiredIdsOfRows(rows, items, clients, today, rows[k]);
    }
  }

  // ---------------------------------------------------------------------
  // One rental

  /** getById's result for a found row: the row's columns with the
      enumerations normalised, the status after expiry, the joined items.
      The reported `updatedAt` is the one read before any expiry write. */
  function DetailsOf(row: RentalRow, items: seq<RentalDraftItem>, today: Date): RentalDetails {
    var h := row.header;
    RentalDetails(
      row.id, h.clientId,
      h.startDate, h.startTime, h.endDate, h.endTime,
      NormalizeDeliveryMode(h.deliveryMode), h.deliveryAddress, h.freightValue,
      NormalizeCurrency(h.currency), h.subtotal, h.total,
      StatusAfterExpiry(NormalizeStatus(h.status), h.quoteValidUntil, today),
      h.quoteValidUntil, h.notes, row.createdAt, row.updatedAt, items)
  }

  /** A rental stored from an input reads back with the input's client,
      dates, times, delivery mode, currency and amounts, and with the
      input's status unless it is a quote that has expired. */
  lemma DetailsOfInput(id: int, input: RentalCreateInput, createdAt: string, updatedAt: string,
                       items: seq<RentalDraftItem>, today: Date)
    ensures var d := DetailsOf(RentalRow(id, HeaderOf(input), createdAt, updatedAt), items, today);
      d.id == id && d.clientId == input.clientId
      && d.startDate == input.startDate && d.startTime == input.startTime
      && d.endDate == input.endDate && d.endTime == input.endTime
      && d.deliveryMode == input.deliveryMode && d.currency == input.currency
      && d.subtotal == Subtotal(input.items)
      && d.total == Subtotal(input.items) + EffectiveFreight(input.deliveryMode, input.freightValue)
      && (d.status == input.status || (d.status == Canceled && IsQuoteExpired(HeaderOf(input).quoteValidUntil, input.status, today)))
      && d.items == items
  {
    HeaderReadsBack(input);
    HeaderOfInput(input);
  }
}
