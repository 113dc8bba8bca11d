/** The new-rental form (`RentalFormScreen.tsx`): the items the user has
    chosen, the queue of equipment picked but not yet confirmed, the
    totals the form shows, the ordered checks that gate saving and the
    payload handed to the rental service. */
module RentalForm {
  import opened Wrappers
  import opened Text
  import opened Calendar
  import opened JsNumber
  import opened Format
  import opened Domain
  import opened Settings
  import opened RentalRules

  // ---------------------------------------------------------------------
  // Totals

  /** `normalizedFreightValue`: the typed freight counts only for a delivery. */
  function NormalizedFreight(mode: DeliveryMode, freightValue: string): real {
    if mode != Delivery then 0.0 else ParseDecimalInput(freightValue)
  }

  /** `total`: the items' subtotal plus the freight that counts. */
  function FormTotal(d: RentalFormDraft): real {
    Subtotal(d.items) + NormalizedFreight(d.deliveryMode, d.freightValue)
  }

  /** The form's freight is the freight the service keeps for the same
      delivery mode. */
  lemma NormalizedFreightIsEffective(mode: DeliveryMode, freightValue: string)
    ensures NormalizedFreight(mode, freightValue) == EffectiveFreight(mode, ParseDecimalInput(freightValue))
    ensures mode == Pickup ==> NormalizedFreight(mode, freightValue) == 0.0
  {
  }

  // ---------------------------------------------------------------------
  // Items

  /** The equipment ids of a list of items. */
  function ItemIds(items: seq<RentalDraftItem>): set<int> {
    set x | x in items :: x.equipmentId
  }

  /** No equipment appears twice. */
  predicate DistinctIds(items: seq<RentalDraftItem>) {
    forall i, j :: 0 <= i < j < |items| ==> items[i].equipmentId != items[j].equipmentId
  }

  /** `items.find(item => item.equipmentId === id)`. */
  function FindItem(items: seq<RentalDraftItem>, equipmentId: int): (r: Option<RentalDraftItem>)
    ensures r.None? <==> equipmentId !in ItemIds(items)
    ensures r.Some? ==> r.value in items && r.value.equipmentId == equipmentId
  {
    if items == [] then None
    else if items[0].equipmentId == equipmentId then Some(items[0])
    else
      assert forall x :: x in items <==> x == items[0] || x in items[1..];
      FindItem(items[1..], equipmentId)
  }

  /** `removeItem`'s filter: every item of that equipment dropped, the
      others kept. */
  function RemoveItemOf(items: seq<RentalDraftItem>, equipmentId: int): (r: seq<RentalDraftItem>)
    ensures forall x :: x in r <==> x in items && x.equipmentId != equipmentId
    ensures |r| <= |items|
  {
    if items == [] then []
    else (if items[0].equipmentId == equipmentId then [] else [items[0]]) + RemoveItemOf(items[1..], equipmentId)
  }

  /** With distinct ids, removing an item drops exactly its position and
      keeps the others in order. */
  lemma {:induction false} RemoveItemAt(items: seq<RentalDraftItem>, i: nat)
    requires DistinctIds(items) && i < |items|
    ensures RemoveItemOf(items, items[i].equipmentId) == items[..i] + items[i + 1..]
    decreases |items|
  {
    if i == 0 {
      RemoveHeadOfDistinct(items);
    } else {
      DistinctTail(items);
      assert items[1..][i - 1] == items[i];
      var id := items[i].equipmentId;
      RemoveItemAt(items[1..], i - 1);
      assert RemoveItemOf(items, id) == [items[0]] + RemoveItemOf(items[1..], id);
      ConsDropAt(items, i);
    }
  }

  /** With distinct ids, removing the first item's equipment drops just it. */
  lemma RemoveHeadOfDistinct(items: seq<RentalDraftItem>)
    requires DistinctIds(items) && items != []
    ensures RemoveItemOf(items, items[0].equipmentId) == items[1..]
  {
    var id := items[0].equipmentId;
    var tail := items[1..];
    forall k | 0 <= k < |tail|
      ensures tail[k].equipmentId != id
    {
      assert tail[k] == items[k + 1];
    }
    RemoveItemAbsent(tail, id);
  }

  /** The items after the first still have distinct ids. */
  lemma DistinctTail(items: seq<RentalDraftItem>)
    requires DistinctIds(items) && items != []
    ensures DistinctIds(items[1..])
  {
    var tail := items[1..];
    forall a, b | 0 <= a < b < |tail|
      ensures tail[a].equipmentId != tail[b].equipmentId
    {
      assert tail[a] == items[a + 1] && tail[b] == items[b + 1];
    }
  }

  /** Dropping position `i - 1` of the tail, with the head put back, drops
      position `i` of the whole sequence. */
  lemma ConsDropAt(items: seq<RentalDraftItem>, i: nat)
    requires 0 < i < |items|
    ensures [items[0]] + (items[1..][..i - 1] + items[1..][i..]) == items[..i] + items[i + 1..]
  {
    var tail := items[1..];
    assert tail[..i - 1] == items[1..i];
    assert tail[i..] == items[i + 1..];
    assert items[..i] == [items[0]] + items[1..i];
  }

  /** Removing an equipment that is not there changes nothing. */
  lemma {:induction false} RemoveItemAbsent(items: seq<RentalDraftItem>, equipmentId: int)
    requires forall k :: 0 <= k < |items| ==> items[k].equipmentId != equipmentId
    ensures RemoveItemOf(items, equipmentId) == items
    decreases |items|
  {
    if items != [] {
      RemoveItemAbsent(items[1..], equipmentId);
      assert [items[0]] + items[1..] == items;
    }
  }

  /** `updateQuantity`'s map: the matching item gets the new quantity,
      every other item is kept. */
  function SetQuantity(items: seq<RentalDraftItem>, equipmentId: int, quantity: int): (r: seq<RentalDraftItem>)
    ensures |r| == |items|
    ensures forall k :: 0 <= k < |items| && items[k].equipmentId == equipmentId ==> r[k].quantity == quantity
    ensures forall k :: 0 <= k < |items| && items[k].equipmentId != equipmentId ==> r[k] == items[k]
    ensures forall k :: 0 <= k < |items| ==> r[k].(quantity := items[k].quantity) == items[k]
  {
    seq(|items|, k requires 0 <= k < |items| =>
      if items[k].equipmentId == equipmentId then items[k].(quantity := quantity) else items[k])
  }

  /** `updateUnitPrice`'s map: the matching item gets the new unit price,
      every other item is kept. */
  function SetUnitPrice(items: seq<RentalDraftItem>, equipmentId: int, unitPrice: real): (r: seq<RentalDraftItem>)
    ensures |r| == |items|
    ensures forall k :: 0 <= k < |items| ==> r[k].(unitPrice := items[k].unitPrice) == items[k]
    ensures forall k :: 0 <= k < |items| ==>
      r[k].unitPrice == (if items[k].equipmentId == equipmentId then unitPrice else items[k].unitPrice)
  {
    seq(|items|, k requires 0 <= k < |items| =>
      if items[k].equipmentId == equipmentId then items[k].(unitPrice := unitPrice) else items[k])
  }

  /** Changing a quantity or a price keeps the equipment of every line. */
  lemma RewriteKeepsIds(items: seq<RentalDraftItem>, equipmentId: int, quantity: int, unitPrice: real)
    ensures ItemIds(SetQuantity(items, equipmentId, quantity)) == ItemIds(items)
    ensures ItemIds(SetUnitPrice(items, equipmentId, unitPrice)) == ItemIds(items)
    ensures DistinctIds(items) ==> DistinctIds(SetQuantity(items, equipmentId, quantity))
    ensures DistinctIds(items) ==> DistinctIds(SetUnitPrice(items, equipmentId, unitPrice))
  {
    var q := SetQuantity(items, equipmentId, quantity);
    var p := SetUnitPrice(items, equipmentId, unitPrice);
    forall id | id in ItemIds(items)
      ensures id in ItemIds(q) && id in ItemIds(p)
    {
      var x :| x in items && x.equipmentId == id;
      var k :| 0 <= k < |items| && items[k] == x;
      assert q[k] in q && p[k] in p;
    }
    forall id | id in ItemIds(q)
      ensures id in ItemIds(items)
    {
      var x :| x in q && x.equipmentId == id;
      var k :| 0 <= k < |q| && q[k] == x;
      assert items[k] in items;
    }
    forall id | id in ItemIds(p)
      ensures id in ItemIds(items)
    {
      var x :| x in p && x.equipmentId == id;
      var k :| 0 <= k < |p| && p[k] == x;
      assert items[k] in items;
    }
  }

  /** `find(equipment => equipment.id === id)` over the loaded equipment. */
  function FindEquipment(equipments: seq<Equipment>, id: int): (r: Option<Equipment>)
    ensures r.None? <==> forall k :: 0 <= k < |equipments| ==> equipments[k].id != id
    ensures r.Some? ==> r.value in equipments && r.value.id == id
  {
    if equipments == [] then None
    else if equipments[0].id == id then Some(equipments[0])
    else
      var r := FindEquipment(equipments[1..], id);
      assert forall k :: 1 <= k < |equipments| ==> equipments[k] == equipments[1..][k - 1];
      r
  }

  /** `getEquipmentStock`: the stock of that equipment, 0 when it is not
      loaded. */
  function EquipmentStock(equipments: seq<Equipment>, id: int): int {
    match FindEquipment(equipments, id)
    case None => 0
    case Some(e) => e.stock
  }

  /** `updateQuantity(id, delta)`: nothing for an equipment not in the list;
      the item removed when the new quantity is not positive; nothing when
      it exceeds the stock; otherwise the item's quantity set. */
  function QuantityChange(items: seq<RentalDraftItem>, equipments: seq<Equipment>,
                          equipmentId: int, delta: int): (r: seq<RentalDraftItem>)
    ensures equipmentId !in ItemIds(items) ==> r == items
    ensures equipmentId in ItemIds(items) ==>
      var next := FindItem(items, equipmentId).value.quantity + delta;
      && (next <= 0 ==> r == RemoveItemOf(items, equipmentId))
      && (0 < next <= EquipmentStock(equipments, equipmentId) ==> r == SetQuantity(items, equipmentId, next))
      && (next > 0 && next > EquipmentStock(equipments, equipmentId) ==> r == items)
    ensures forall x :: x in r && x !in items ==>
      1 <= x.quantity <= EquipmentStock(equipments, x.equipmentId)
  {
    match FindItem(items, equipmentId)
    case None => items
    case Some(current) =>
      var next := current.quantity + delta;
      if next <= 0 then RemoveItemOf(items, equipmentId)
      else if next > EquipmentStock(equipments, equipmentId) then items
      else SetQuantity(items, equipmentId, next)
  }

  // ---------------------------------------------------------------------
  // The queue of picked equipment

  /** No id appears twice. */
  predicate Distinct(ids: seq<int>) {
    forall i, j :: 0 <= i < j < |ids| ==> ids[i] != ids[j]
  }

  /** `queueEquipmentForSelection`: the id appended unless already queued. */
  function Enqueue(pending: seq<int>, id: int): (r: seq<int>)
    ensures forall x :: x in r <==> x in pending || x == id
    ensures Distinct(pending) ==> Distinct(r)
    ensures id in pending ==> r == pending
  {
    if id in pending then pending else pending + [id]
  }

  /** `removeQueuedEquipment`: the id dropped, the rest kept in order. */
  function Dequeue(pending: seq<int>, id: int): (r: seq<int>)
    ensures forall x :: x in r <==> x in pending && x != id
    ensures Distinct(pending) ==> Distinct(r)
  {
    if pending == [] then []
    else
      var rest := Dequeue(pending[1..], id);
      assert forall x :: x in pending <==> x == pending[0] || x in pending[1..];
      if pending[0] == id then rest
      else
        assert Distinct(pending) ==> forall k :: 1 <= k < |pending| ==> pending[k] != pending[0];
        assert Distinct(pending) ==> pending[0] !in pending[1..];
        [pending[0]] + rest
  }

  /** `pendingEquipments`: the loaded equipment of each queued id, in queue
      order; ids no longer loaded are skipped. */
  function PendingEquipments(pending: seq<int>, equipments: seq<Equipment>): (r: seq<Equipment>)
    ensures forall e :: e in r ==> e in equipments && e.id in pending
    ensures r == [] <==> forall k :: 0 <= k < |pending| ==> FindEquipment(equipments, pending[k]).None?
  {
    if pending == [] then []
    else
      var rest := PendingEquipments(pending[1..], equipments);
      assert forall k :: 1 <= k < |pending| ==> pending[k] == pending[1..][k - 1];
      match FindEquipment(equipments, pending[0])
      case None => rest
      case Some(e) => [e] + rest
  }

  /** The line a confirmed equipment starts as: one unit at the rate of its
      rental mode. */
  function NewItem(e: Equipment, rules: PricingRules): RentalDraftItem {
    RentalDraftItem(e.id, e.name, 1, CalculateRateByMode(e.dailyRate, e.rentalMode, rules))
  }

  /** One turn of confirmEquipmentSelection's loop: an equipment out of
      stock or already in the list is skipped, any other is appended. */
  function AddSelected(acc: seq<RentalDraftItem>, e: Equipment, rules: PricingRules): seq<RentalDraftItem> {
    if e.stock <= 0 || e.id in ItemIds(acc) then acc else acc + [NewItem(e, rules)]
  }

  /** The items after confirming `chosen`, in order, on top of `acc`. */
  function ConfirmSelection(acc: seq<RentalDraftItem>, chosen: seq<Equipment>, rules: PricingRules): seq<RentalDraftItem>
    decreases |chosen|
  {
    if chosen == [] then acc else ConfirmSelection(AddSelected(acc, chosen[0], rules), chosen[1..], rules)
  }

  /** The lines an equipment in stock among `chosen` may be added as. */
  function Offered(chosen: seq<Equipment>, rules: PricingRules): set<RentalDraftItem> {
    set e | e in chosen && e.stock > 0 :: NewItem(e, rules)
  }

  lemma ItemIdsAppend(acc: seq<RentalDraftItem>, x: RentalDraftItem)
    ensures ItemIds(acc + [x]) == ItemIds(acc) + {x.equipmentId}
  {
    assert forall y :: y in acc + [x] <==> y in acc || y == x;
  }

  /** Confirming leaves the items already chosen untouched, at the front. */
  lemma {:induction false} ConfirmKeepsItems(acc: seq<RentalDraftItem>, chosen: seq<Equipment>, rules: PricingRules)
    ensures |acc| <= |ConfirmSelection(acc, chosen, rules)|
    ensures ConfirmSelection(acc, chosen, rules)[..|acc|] == acc
    decreases |chosen|
  {
    if chosen != [] {
      var next := AddSelected(acc, chosen[0], rules);
      ConfirmKeepsItems(next, chosen[1..], rules);
      assert next[..|acc|] == acc;
    }
  }

  /** Every line confirming adds is a fresh line for an equipment in stock
      among the chosen ones. */
  lemma {:induction false} ConfirmAddsOffered(acc: seq<RentalDraftItem>, chosen: seq<Equipment>, rules: PricingRules)
    ensures forall x :: x in ConfirmSelection(acc, chosen, rules) ==> x in acc || x in Offered(chosen, rules)
    decreases |chosen|
  {
    if chosen != [] {
      var next := AddSelected(acc, chosen[0], rules);
      ConfirmAddsOffered(next, chosen[1..], rules);
      forall x | x in ConfirmSelection(acc, chosen, rules)
        ensures x in acc || x in Offered(chosen, rules)
      {
        if x !in next {
          assert x in Offered(chosen[1..], rules);
          var e :| e in chosen[1..] && e.stock > 0 && x == NewItem(e, rules);
          assert e in chosen;
        } else if x !in acc {
          assert x == NewItem(chosen[0], rules);
        }
      }
    }
  }

  /** Confirming never lists an equipment twice. */
  lemma {:induction false} ConfirmDistinct(acc: seq<RentalDraftItem>, chosen: seq<Equipment>, rules: PricingRules)
    requires DistinctIds(acc)
    ensures DistinctIds(ConfirmSelection(acc, chosen, rules))
    decreases |chosen|
  {
    if chosen != [] {
      var next := AddSelected(acc, chosen[0], rules);
      if next != acc {
        forall i | 0 <= i < |acc|
          ensures acc[i].equipmentId != chosen[0].id
        {
          assert acc[i] in acc;
        }
      }
      ConfirmDistinct(next, chosen[1..], rules);
    }
  }

  /** After confirming, every chosen equipment in stock is in the list. */
  lemma {:induction false} ConfirmComplete(acc: seq<RentalDraftItem>, chosen: seq<Equipment>, rules: PricingRules)
    ensures forall e :: e in chosen && e.stock > 0 ==> e.id in ItemIds(ConfirmSelection(acc, chosen, rules))
    decreases |chosen|
  {
    if chosen != [] {
      var next := AddSelected(acc, chosen[0], rules);
      ConfirmComplete(next, chosen[1..], rules);
      ConfirmKeepsIds(next, chosen[1..], rules);
      if chosen[0].stock > 0 && chosen[0].id !in ItemIds(acc) {
        ItemIdsAppend(acc, NewItem(chosen[0], rules));
      }
    }
  }

  /** The ids already listed stay listed through confirmation. */
  lemma ConfirmKeepsIds(acc: seq<RentalDraftItem>, chosen: seq<Equipment>, rules: PricingRules)
    ensures ItemIds(acc) <= ItemIds(ConfirmSelection(acc, chosen, rules))
  {
    var r := ConfirmSelection(acc, chosen, rules);
    ConfirmKeepsItems(acc, chosen, rules);
    forall id | id in ItemIds(acc)
      ensures id in ItemIds(r)
    {
      var x :| x in acc && x.equipmentId == id;
      var k :| 0 <= k < |acc| && acc[k] == x;
      assert r[k] == r[..|acc|][k];
      assert r[k] in r;
    }
  }

  // ---------------------------------------------------------------------
  // The equipment picker's list

  /** `rentalModeLabelMap`. */
  function ModeLabel(m: RentalMode): string {
    match m
    case Daily => "Diaria"
    case Weekly => "Semanal"
    case Fortnightly => "Quinzenal"
    case Monthly => "Mensal"
  }

  /** The text the picker's search looks in: name, category and mode label. */
  function SearchText(e: Equipment): string {
    e.name + " " + e.category.GetOr("") + " " + ModeLabel(e.rentalMode)
  }

  /** An equipment the search term lets through: any, for an empty term. */
  predicate MatchesSearch(e: Equipment, term: string) {
    term == [] || Includes(AsciiLower(SearchText(e)), term)
  }

  /** The filter of `filteredEquipments`, with the term already lowered. */
  function FilterEquipments(equipments: seq<Equipment>, selected: set<int>, pending: seq<int>, term: string): (r: seq<Equipment>)
    ensures forall e :: e in r <==>
      e in equipments && e.id !in selected && e.id !in pending && MatchesSearch(e, term)
  {
    if equipments == [] then []
    else
      var e := equipments[0];
      var rest := FilterEquipments(equipments[1..], selected, pending, term);
      assert forall x :: x in equipments <==> x == e || x in equipments[1..];
      if e.id !in selected && e.id !in pending && MatchesSearch(e, term) then [e] + rest else rest
  }

  /** `filteredEquipments`: the loaded equipment that is neither listed nor
      queued, and that the trimmed, lower-cased search term matches. */
  function FilteredEquipments(equipments: seq<Equipment>, items: seq<RentalDraftItem>,
                              pending: seq<int>, search: string): seq<Equipment> {
    FilterEquipments(equipments, ItemIds(items), pending, AsciiLower(Trim(search)))
  }

  /** The picker never offers an equipment already listed or queued, and
      with a blank search it offers every other one. */
  lemma FilteredOffersOnlyNew(equipments: seq<Equipment>, items: seq<RentalDraftItem>, pending: seq<int>, search: string)
    ensures forall e :: e in FilteredEquipments(equipments, items, pending, search) ==>
      e in equipments && e.id !in ItemIds(items) && e.id !in pending
    ensures AllSpace(search) ==>
      forall e :: e in equipments && e.id !in ItemIds(items) && e.id !in pending ==>
        e in FilteredEquipments(equipments, items, pending, search)
  {
    TrimEmptyIffAllSpace(search);
  }

  // ---------------------------------------------------------------------
  // Saving

  /** Why onSave stops, one reason per alert, in the order it checks them. */
  datatype SaveError =
    | NoClient
    | NoItems
    | InvalidDate
    | InvalidTime
    | StartAfterEnd
    | MissingAddress
    | InvalidFreight
    | MissingValidity
    | InvalidValidity
    | UnreadableValidity
    | ValidityBeforeToday
    | NonPositiveTotal

  /** The payload onSave hands to create or update: the validity date only
      for a quote, the freight as the form counts it. */
  function SavePayload(d: RentalFormDraft, clientId: int, currency: CurrencyCode): RentalCreateInput {
    RentalCreateInput(
      clientId,
      d.startDate, d.startTime, d.endDate, d.endTime,
      d.deliveryMode,
      Some(d.deliveryAddress),
      NormalizedFreight(d.deliveryMode, d.freightValue),
      currency,
      d.status,
      if d.status == Quote then Some(d.quoteValidUntil) else None,
      Some(d.notes),
      d.items)
  }

  /** onSave's date and time checks, in order: both dates valid, both
      times valid, the start not after the end. */
  function ScheduleError(d: RentalFormDraft): (r: Option<SaveError>)
    ensures r.Some? ==> r.value in {InvalidDate, InvalidTime, StartAfterEnd}
  {
    if !IsValidBrDate(d.startDate) || !IsValidBrDate(d.endDate) then Some(InvalidDate)
    else if !IsValidTimeHHmm(d.startTime) || !IsValidTimeHHmm(d.endTime) then Some(InvalidTime)
    else if CompareBrDateTime(d.startDate, d.startTime, d.endDate, d.endTime) == 1 then Some(StartAfterEnd)
    else None
  }

  /** onSave's delivery checks: an address that is not blank and a freight
      that is not negative. */
  function DeliveryError(d: RentalFormDraft): (r: Option<SaveError>)
    ensures r.Some? ==> r.value in {MissingAddress, InvalidFreight}
  {
    if d.deliveryMode == Delivery && Trim(d.deliveryAddress) == [] then Some(MissingAddress)
    else if d.deliveryMode == Delivery && NormalizedFreight(d.deliveryMode, d.freightValue) < 0.0 then Some(InvalidFreight)
    else None
  }

  /** onSave's quote checks: a validity date that is not blank, is a valid
      date, parses, and is not before today (midnight of the clock's day). */
  function QuoteError(status: RentalStatus, quoteValidUntil: string, today: Date): Option<SaveError> {
    if status == Quote && Trim(quoteValidUntil) == [] then Some(MissingValidity)
    else if status == Quote && !IsValidBrDate(quoteValidUntil) then Some(InvalidValidity)
    else if status == Quote && ParseBrDate(quoteValidUntil).None? then Some(UnreadableValidity)
    else if status == Quote && DayNumber(ParseBrDate(quoteValidUntil).value) < DayNumber(today) then
      Some(ValidityBeforeToday)
    else None
  }

  /** `onSave`'s checks, in order: the first that fails is the error (its
      alert), and when none fails the payload is built for create or
      update. */
  function ValidateSave(d: RentalFormDraft, currency: CurrencyCode, today: Date): Result<RentalCreateInput, SaveError> {
    if d.selectedClientId.None? || d.selectedClientId.value == 0 then Err(NoClient)
    else if d.items == [] then Err(NoItems)
    else if ScheduleError(d).Some? then Err(ScheduleError(d).value)
    else if DeliveryError(d).Some? then Err(DeliveryError(d).value)
    else if QuoteError(d.status, d.quoteValidUntil, today).Some? then Err(QuoteError(d.status, d.quoteValidUntil, today).value)
    else if FormTotal(d) <= 0.0 then Err(NonPositiveTotal)
    else Ok(SavePayload(d, d.selectedClientId.value, currency))
  }

  /** The hour and minute an HH:MM string writes. */
  function TimeFields(s: string): (int, int)
    requires IsValidTimeHHmm(s)
  {
    (DigitsValue(s[..2]) as int, DigitsValue(s[3..]) as int)
  }

  /** Real dates and times, the start not after the end. */
  predicate ScheduleOk(d: RentalFormDraft) {
    && IsValidBrDate(d.startDate) && IsValidBrDate(d.endDate)
    && IsValidTimeHHmm(d.startTime) && IsValidTimeHHmm(d.endTime)
    && !DateTimeBefore(BrDateFields(d.endDate), TimeFields(d.endTime).0, TimeFields(d.endTime).1,
                       BrDateFields(d.startDate), TimeFields(d.startTime).0, TimeFields(d.startTime).1)
  }

  /** A delivery names an address and a freight that is not negative. */
  predicate DeliveryOk(d: RentalFormDraft) {
    d.deliveryMode == Delivery ==> !AllSpace(d.deliveryAddress) && ParseDecimalInput(d.freightValue) >= 0.0
  }

  /** A quote is valid until a real date that is not before today. */
  predicate QuoteOk(status: RentalStatus, quoteValidUntil: string, today: Date) {
    status == Quote ==> IsValidBrDate(quoteValidUntil) && !DateBefore(BrDateFields(quoteValidUntil), today)
  }

  /** What a saveable form is, stated on dates rather than strings: a
      client, at least one item, a sound schedule, a sound delivery, a
      sound quote and a positive total. */
  predicate Saveable(d: RentalFormDraft, today: Date) {
    && d.selectedClientId.Some? && d.selectedClientId.value != 0
    && d.items != []
    && ScheduleOk(d) && DeliveryOk(d) && QuoteOk(d.status, d.quoteValidUntil, today)
    && FormTotal(d) > 0.0
  }

  /** The date and time checks pass exactly on a sound schedule. */
  lemma ScheduleErrorIff(d: RentalFormDraft)
    ensures ScheduleError(d).None? <==> ScheduleOk(d)
  {
    if IsValidBrDate(d.startDate) && IsValidBrDate(d.endDate)
       && IsValidTimeHHmm(d.startTime) && IsValidTimeHHmm(d.endTime) {
      CompareValid(d.startDate, d.startTime, d.endDate, d.endTime);
    }
  }

  /** The delivery checks pass exactly on a sound delivery. */
  lemma DeliveryErrorIff(d: RentalFormDraft)
    ensures DeliveryError(d).None? <==> DeliveryOk(d)
  {
    TrimEmptyIffAllSpace(d.deliveryAddress);
  }

  /** The quote checks pass exactly on a sound quote, and the parse check
      never fires: the validity check before it rejects what it would. */
  lemma QuoteErrorIff(status: RentalStatus, quoteValidUntil: string, today: Date)
    requires IsRealDate(today)
    ensures QuoteError(status, quoteValidUntil, today).None? <==> QuoteOk(status, quoteValidUntil, today)
    ensures QuoteError(status, quoteValidUntil, today) != Some(UnreadableValidity)
  {
    ValidityFacts(quoteValidUntil, today);
  }

  /** A valid DD/MM/YYYY string is its own trim, and not blank. */
  lemma ValidDateTrimmed(s: string)
    requires BrDateShape(s)
    ensures Trim(s) == s && s != []
  {
    forall k | 0 <= k < |s|
      ensures !IsSpace(s[k])
    {
      if k < 2 {
        assert s[..2][k] == s[k];
      } else if 3 <= k < 5 {
        assert s[3..5][k - 3] == s[k];
      } else if 6 <= k {
        assert s[6..][k - 6] == s[k];
      }
    }
    TrimNoSpace(s);
  }

  /** What the quote checks need of a valid validity date: it is not
      blank, it parses to its own fields, and its day number is before
      today's exactly when it is an earlier date. */
  lemma ValidityFacts(q: string, today: Date)
    requires IsRealDate(today)
    ensures ParseBrDate(q).Some? <==> IsValidBrDate(q)
    ensures IsValidBrDate(q) ==>
      && Trim(q) != []
      && ParseBrDate(q) == Some(BrDateFields(q))
      && (DayNumber(BrDateFields(q)) < DayNumber(today) <==> DateBefore(BrDateFields(q), today))
  {
    ParseBrDateValid(q);
    if IsValidBrDate(q) {
      ValidDateTrimmed(q);
      DayNumberOrder(BrDateFields(q), today);
    }
  }

  /** onSave goes through exactly for a saveable form. */
  lemma ValidateSaveIff(d: RentalFormDraft, currency: CurrencyCode, today: Date)
    requires IsRealDate(today)
    ensures ValidateSave(d, currency, today).Ok? <==> Saveable(d, today)
  {
    ScheduleErrorIff(d);
    DeliveryErrorIff(d);
    QuoteErrorIff(d.status, d.quoteValidUntil, today);
    if d.selectedClientId.None? || d.selectedClientId.value == 0 || d.items == [] {
    } else if ScheduleError(d).Some? {
      assert !ScheduleOk(d);
    } else if DeliveryError(d).Some? {
      assert !DeliveryOk(d);
    } else if QuoteError(d.status, d.quoteValidUntil, today).Some? {
      assert !QuoteOk(d.status, d.quoteValidUntil, today);
    } else {
      assert ScheduleOk(d) && DeliveryOk(d) && QuoteOk(d.status, d.quoteValidUntil, today);
    }
  }

  /** onSave never stops on the unreadable-validity check, and when it goes
      through it saves the form's payload. */
  lemma ValidateSaveResult(d: RentalFormDraft, currency: CurrencyCode, today: Date)
    requires IsRealDate(today)
    ensures ValidateSave(d, currency, today) != Err(UnreadableValidity)
    ensures ValidateSave(d, currency, today).Ok? ==>
      ValidateSave(d, currency, today).value == SavePayload(d, d.selectedClientId.value, currency)
  {
    QuoteErrorIff(d.status, d.quoteValidUntil, today);
    var r := ValidateSave(d, currency, today);
    if d.selectedClientId.None? || d.selectedClientId.value == 0 || d.items == [] {
    } else if ScheduleError(d).Some? {
      assert ScheduleError(d).value != UnreadableValidity;
    } else if DeliveryError(d).Some? {
      assert DeliveryError(d).value != UnreadableValidity;
    } else if QuoteError(d.status, d.quoteValidUntil, today).Some? {
    } else {
      assert r == Ok(SavePayload(d, d.selectedClientId.value, currency)) || r == Err(NonPositiveTotal);
    }
  }

  /** The header stored for a form's payload carries the form's subtotal
      and total, and a validity date exactly for a quote. */
  lemma SavedTotals(d: RentalFormDraft, clientId: int, currency: CurrencyCode)
    ensures var p := SavePayload(d, clientId, currency);
      && (p.quoteValidUntil.Some? <==> d.status == Quote)
      && HeaderOf(p).subtotal == Subtotal(d.items)
      && HeaderOf(p).total == FormTotal(d)
  {
    var p := SavePayload(d, clientId, currency);
    var f := NormalizedFreight(d.deliveryMode, d.freightValue);
    assert p.items == d.items && p.deliveryMode == d.deliveryMode && p.freightValue == f;
    NormalizedFreightKept(d.deliveryMode, d.freightValue);
    HeaderTotals(p);
  }

  /** The freight the form keeps is the freight the service keeps of it. */
  lemma NormalizedFreightKept(mode: DeliveryMode, freightValue: string)
    ensures EffectiveFreight(mode, NormalizedFreight(mode, freightValue)) == NormalizedFreight(mode, freightValue)
  {
    NormalizedFreightIsEffective(mode, freightValue);
  }

  /** The header's subtotal and total, read off the payload. */
  lemma HeaderTotals(p: RentalCreateInput)
    ensures HeaderOf(p).subtotal == Subtotal(p.items)
    ensures HeaderOf(p).total == Subtotal(p.items) + EffectiveFreight(p.deliveryMode, p.freightValue)
  {
  }

  /** The header stored for a form whose quote checks passed is not an
      expired quote on the day it is saved. */
  lemma SavedQuoteLive(d: RentalFormDraft, clientId: int, currency: CurrencyCode, today: Date)
    requires IsRealDate(today)
    requires QuoteOk(d.status, d.quoteValidUntil, today)
    ensures var p := SavePayload(d, clientId, currency);
      !IsQuoteExpired(HeaderOf(p).quoteValidUntil, p.status, today)
  {
    var p := SavePayload(d, clientId, currency);
    assert HeaderOf(p).quoteValidUntil == SanitizeQuoteValidUntil(p.status, p.quoteValidUntil);
    if d.status == Quote {
      var q := d.quoteValidUntil;
      assert p.status == Quote && p.quoteValidUntil == Some(q);
      StoredValidDate(q);
      ValidQuoteLive(q, today);
    }
  }

  /** A valid validity date is stored as it is. */
  lemma StoredValidDate(q: string)
    requires IsValidBrDate(q)
    ensures SanitizeQuoteValidUntil(Quote, Some(q)) == Some(q)
  {
    ValidDateTrimmed(q);
    assert TrimOrNull(Some(q)) == Some(q);
  }

  /** A quote valid until a valid date not before today has not expired. */
  lemma ValidQuoteLive(q: string, today: Date)
    requires IsRealDate(today)
    requires IsValidBrDate(q) && !DateBefore(BrDateFields(q), today)
    ensures !IsQuoteExpired(Some(q), Quote, today)
  {
    ValidityFacts(q, today);
  }

  /** What a saveable form stores: the total the form checked (so a
      positive one), a validity date only for a quote, and a quote that
      has not already expired on the day it is saved. */
  lemma SavedRental(d: RentalFormDraft, currency: CurrencyCode, today: Date)
    requires IsRealDate(today)
    requires Saveable(d, today)
    ensures var p := SavePayload(d, d.selectedClientId.value, currency);
      && (p.quoteValidUntil.Some? <==> d.status == Quote)
      && HeaderOf(p).subtotal == Subtotal(d.items)
      && HeaderOf(p).total == FormTotal(d) && HeaderOf(p).total > 0.0
      && !IsQuoteExpired(HeaderOf(p).quoteValidUntil, p.status, today)
  {
    var clientId := d.selectedClientId.value;
    assert QuoteOk(d.status, d.quoteValidUntil, today) && FormTotal(d) > 0.0;
    SavedTotals(d, clientId, currency);
    SavedQuoteLive(d, clientId, currency, today);
  }

  /** The loop of `confirmEquipmentSelection`: a copy of the items and a
      set of their ids, an equipment appended (and its id added) unless it
      is out of stock or already listed. */
  method AppendChosen(items: seq<RentalDraftItem>, chosen: seq<Equipment>, rules: PricingRules)
    returns (nextItems: seq<RentalDraftItem>)
    ensures nextItems == ConfirmSelection(items, chosen, rules)
  {
    var currentIds := ItemIds(items);
    nextItems := items;
    var i := 0;
    while i < |chosen|
      invariant 0 <= i <= |chosen|
      invariant ConfirmSelection(nextItems, chosen[i..], rules) == ConfirmSelection(items, chosen, rules)
      invariant currentIds == ItemIds(nextItems)
    {
      var e := chosen[i];
      assert chosen[i..] == [e] + chosen[i + 1..];
      if !(e.stock <= 0 || e.id in currentIds) {
        ItemIdsAppend(nextItems, NewItem(e, rules));
        nextItems := nextItems + [NewItem(e, rules)];
        currentIds := currentIds + {e.id};
      }
      i := i + 1;
    }
    assert chosen[i..] == [];
  }

  // ---------------------------------------------------------------------
  // The form's state

  /** The form's component state that its handlers replace: the draft
      fields and the queue of picked equipment. The loaded equipment and
      the pricing rules are read only. */
  class FormState {
    var draft: RentalFormDraft
    var pending: seq<int>
    const equipments: seq<Equipment>
    const rules: PricingRules

    /** No equipment listed twice, no id queued twice. */
    predicate Valid()
      reads this
    {
      DistinctIds(draft.items) && Distinct(pending)
    }

    /** A form opened on a stored draft, with nothing queued. */
    constructor(initial: RentalFormDraft, equipments: seq<Equipment>, rules: PricingRules)
      ensures draft == initial && pending == []
      ensures this.equipments == equipments && this.rules == rules
      ensures DistinctIds(initial.items) ==> Valid()
    {
      draft := initial;
      pending := [];
      this.equipments := equipments;
      this.rules := rules;
    }

    /** `removeItem`. */
    method RemoveItem(equipmentId: int)
      modifies this
      ensures draft == old(draft).(items := RemoveItemOf(old(draft.items), equipmentId))
      ensures pending == old(pending)
      ensures old(Valid()) ==> Valid()
    {
      if DistinctIds(draft.items) {
        RemoveKeepsDistinct(draft.items, equipmentId);
      }
      draft := draft.(items := RemoveItemOf(draft.items, equipmentId));
    }

    /** `updateQuantity`: the stock is the loaded equipment's. */
    method UpdateQuantity(equipmentId: int, delta: int)
      modifies this
      ensures draft == old(draft).(items := QuantityChange(old(draft.items), equipments, equipmentId, delta))
      ensures pending == old(pending)
      ensures old(Valid()) ==> Valid()
    {
      if DistinctIds(draft.items) {
        QuantityChangeKeepsDistinct(draft.items, equipments, equipmentId, delta);
      }
      draft := draft.(items := QuantityChange(draft.items, equipments, equipmentId, delta));
    }

    /** `updateUnitPrice`: the typed price read as a decimal. */
    method UpdateUnitPrice(equipmentId: int, rawValue: string)
      modifies this
      ensures draft == old(draft).(items := SetUnitPrice(old(draft.items), equipmentId, ParseDecimalInput(rawValue)))
      ensures pending == old(pending)
      ensures old(Valid()) ==> Valid()
    {
      RewriteKeepsIds(draft.items, equipmentId, 0, ParseDecimalInput(rawValue));
      draft := draft.(items := SetUnitPrice(draft.items, equipmentId, ParseDecimalInput(rawValue)));
    }

    /** `queueEquipmentForSelection`. */
    method Queue(equipmentId: int)
      modifies this
      ensures pending == Enqueue(old(pending), equipmentId) && draft == old(draft)
      ensures old(Valid()) ==> Valid()
    {
      pending := Enqueue(pending, equipmentId);
    }

    /** `removeQueuedEquipment`. */
    method RemoveQueued(equipmentId: int)
      modifies this
      ensures pending == Dequeue(old(pending), equipmentId) && draft == old(draft)
      ensures old(Valid()) ==> Valid()
    {
      pending := Dequeue(pending, equipmentId);
    }

    /** `confirmEquipmentSelection`: with nothing loaded in the queue it
        stops (the alert) and keeps the queue; otherwise it appends the
        chosen equipment, one pass over the queue with a set of the ids
        listed so far, and closes the picker, which empties the queue. */
    method ConfirmEquipmentSelection() returns (confirmed: bool)
      modifies this
      ensures confirmed <==> PendingEquipments(old(pending), equipments) != []
      ensures !confirmed ==> draft == old(draft) && pending == old(pending)
      ensures confirmed ==>
        draft == old(draft).(items := ConfirmSelection(old(draft.items), PendingEquipments(old(pending), equipments), rules))
        && pending == []
      ensures old(Valid()) ==> Valid()
    {
      var chosen := PendingEquipments(pending, equipments);
      if chosen == [] {
        return false;
      }
      var nextItems := AppendChosen(draft.items, chosen, rules);
      if DistinctIds(draft.items) {
        ConfirmDistinct(draft.items, chosen, rules);
      }
      draft := draft.(items := nextItems);
      pending := [];
      return true;
    }

    /** `onStatusPress`: the new status; any status but quote also clears
        the validity date. */
    method OnStatusPress(next: RentalStatus)
      modifies this
      ensures draft == old(draft).(status := next,
                                   quoteValidUntil := if next == Quote then old(draft.quoteValidUntil) else "")
      ensures pending == old(pending)
    {
      draft := draft.(status := next);
      if next != Quote {
        draft := draft.(quoteValidUntil := "");
      }
    }
  }

  /** Removing an equipment keeps the others distinct. */
  lemma {:induction false} RemoveKeepsDistinct(items: seq<RentalDraftItem>, equipmentId: int)
    requires DistinctIds(items)
    ensures DistinctIds(RemoveItemOf(items, equipmentId))
    decreases |items|
  {
    if items != [] {
      var tail := items[1..];
      var rest := RemoveItemOf(tail, equipmentId);
      DistinctTail(items);
      RemoveKeepsDistinct(tail, equipmentId);
      if items[0].equipmentId != equipmentId {
        forall y | y in rest
          ensures y.equipmentId != items[0].equipmentId
        {
          var k :| 0 <= k < |tail| && tail[k] == y;
          assert items[k + 1] == y;
        }
        DistinctCons(items[0], rest);
        assert RemoveItemOf(items, equipmentId) == [items[0]] + rest;
      } else {
        assert RemoveItemOf(items, equipmentId) == rest;
      }
    }
  }

  /** An item whose id is not among distinct ones can go in front. */
  lemma DistinctCons(x: RentalDraftItem, rest: seq<RentalDraftItem>)
    requires DistinctIds(rest)
    requires forall y :: y in rest ==> y.equipmentId != x.equipmentId
    ensures DistinctIds([x] + rest)
  {
    var r := [x] + rest;
    forall i, j | 0 <= i < j < |r|
      ensures r[i].equipmentId != r[j].equipmentId
    {
      assert r[j] == rest[j - 1];
      if i > 0 {
        assert r[i] == rest[i - 1];
      }
    }
  }

  /** A quantity update keeps the equipment listed at most once. */
  lemma QuantityChangeKeepsDistinct(items: seq<RentalDraftItem>, equipments: seq<Equipment>,
                                    equipmentId: int, delta: int)
    requires DistinctIds(items)
    ensures DistinctIds(QuantityChange(items, equipments, equipmentId, delta))
  {
    var r := QuantityChange(items, equipments, equipmentId, delta);
    match FindItem(items, equipmentId)
    case None =>
      assert r == items;
    case Some(current) =>
      var next := current.quantity + delta;
      if next <= 0 {
        assert r == RemoveItemOf(items, equipmentId);
        RemoveKeepsDistinct(items, equipmentId);
      } else if next <= EquipmentStock(equipments, equipmentId) {
        assert r == SetQuantity(items, equipmentId, next);
        RewriteKeepsIds(items, equipmentId, next, 0.0);
      } else {
        assert r == items;
      }
  }
}
