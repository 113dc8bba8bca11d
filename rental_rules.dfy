/** The pure rules of the rental service (`rentalService.ts`): money
    totals, the normalisation of stored enumeration text, the cleaning of
    optional columns, the header a rental is stored as, and quote expiry. */
module RentalRules {
  import opened Wrappers
  import opened Text
  import opened Calendar
  import opened Format
  import opened Domain

  // ---------------------------------------------------------------------
  // Money

  /** `buildItemTotal`: quantity times unit price. */
  function BuildItemTotal(item: RentalDraftItem): real {
    item.quantity as real * item.unitPrice
  }

  /** `items.reduce((acc, item) => acc + buildItemTotal(item), 0)`: the
      line totals added from the first item to the last. */
  function Subtotal(items: seq<RentalDraftItem>): real
    decreases |items|
  {
    if items == [] then 0.0
    else Subtotal(items[..|items| - 1]) + BuildItemTotal(items[|items| - 1])
  }

  /** The subtotal of two lists one after the other is the sum of theirs. */
  lemma {:induction false} SubtotalAppend(a: seq<RentalDraftItem>, b: seq<RentalDraftItem>)
    ensures Subtotal(a + b) == Subtotal(a) + Subtotal(b)
    decreases |b|
  {
    if b != [] {
      assert (a + b)[..|a + b| - 1] == a + b[..|b| - 1];
      SubtotalAppend(a, b[..|b| - 1]);
    } else {
      assert a + b == a;
    }
  }

  /** The subtotal counts each item once, in any position: it is the line
      total of the first item plus the subtotal of the rest. */
  lemma SubtotalCons(item: RentalDraftItem, rest: seq<RentalDraftItem>)
    ensures Subtotal([item] + rest) == BuildItemTotal(item) + Subtotal(rest)
  {
    SubtotalAppend([item], rest);
    assert [item][..0] == [];
  }

  /** No negative quantity or price, no negative subtotal. */
  lemma {:induction false} SubtotalNonNegative(items: seq<RentalDraftItem>)
    requires forall i :: 0 <= i < |items| ==> items[i].quantity >= 0 && items[i].unitPrice >= 0.0
    ensures Subtotal(items) >= 0.0
    decreases |items|
  {
    if items != [] {
      var last := items[|items| - 1];
      SubtotalNonNegative(items[..|items| - 1]);
      assert last.quantity as real * last.unitPrice >= 0.0;
    }
  }

  /** The freight that counts: the input freight for a delivery, 0 for a
      pickup. */
  function EffectiveFreight(mode: DeliveryMode, freightValue: real): (f: real)
    ensures mode == Delivery ==> f == freightValue
    ensures mode == Pickup ==> f == 0.0
  {
    if mode == Delivery then freightValue else 0.0
  }

  // ---------------------------------------------------------------------
  // Stored enumeration text

  /** `normalizeDeliveryMode`: delivery is kept, anything else is pickup. */
  function NormalizeDeliveryMode(value: string): (d: DeliveryMode)
    ensures d == Delivery <==> value == "delivery"
  {
    if value == "delivery" then Delivery else Pickup
  }

  /** `normalizeCurrency`: USD and EUR are kept, anything else is BRL. */
  function NormalizeCurrency(value: string): (c: CurrencyCode)
    ensures c == USD <==> value == "USD"
    ensures c == EUR <==> value == "EUR"
    ensures c == BRL <==> value != "USD" && value != "EUR"
  {
    if value == "USD" then USD
    else if value == "EUR" then EUR
    else BRL
  }

  /** `normalizeStatus`: completed, canceled and quote are kept, the legacy
      closed and draft become completed and quote, anything else is in
      progress. */
  function NormalizeStatus(value: string): (s: RentalStatus)
    ensures s == Completed <==> value == "completed" || value == "closed"
    ensures s == Canceled <==> value == "canceled"
    ensures s == Quote <==> value == "quote" || value == "draft"
    ensures s == InProgress <==>
      value !in {"completed", "closed", "canceled", "quote", "draft"}
  {
    if value == "completed" || value == "canceled" || value == "quote" then
      (if value == "completed" then Completed else if value == "canceled" then Canceled else Quote)
    else if value == "closed" then Completed
    else if value == "draft" then Quote
    else InProgress
  }

  /** Each normaliser reads back the text its value is stored as. */
  lemma NormalizeOfName(d: DeliveryMode, c: CurrencyCode, s: RentalStatus)
    ensures NormalizeDeliveryMode(DeliveryName(d)) == d
    ensures NormalizeCurrency(CurrencyName(c)) == c
    ensures NormalizeStatus(StatusName(s)) == s
  {
  }

  /** The normalisers are idempotent: normalising the stored text of a
      normalised value gives that value again. */
  lemma NormalizeIdempotent(value: string)
    ensures NormalizeDeliveryMode(DeliveryName(NormalizeDeliveryMode(value))) == NormalizeDeliveryMode(value)
    ensures NormalizeCurrency(CurrencyName(NormalizeCurrency(value))) == NormalizeCurrency(value)
    ensures NormalizeStatus(StatusName(NormalizeStatus(value))) == NormalizeStatus(value)
  {
    NormalizeOfName(NormalizeDeliveryMode(value), NormalizeCurrency(value), NormalizeStatus(value));
  }

  // ---------------------------------------------------------------------
  // Optional columns

  /** `value?.trim() || null`: the trimmed text, or null when the value is
      absent or blank. */
  function TrimOrNull(value: Option<string>): (r: Option<string>)
    ensures r.None? <==> value.None? || AllSpace(value.value)
    ensures r.Some? ==> r.value != [] && r.value == Trim(value.value)
  {
    match value
    case None => None
    case Some(t) =>
      TrimEmptyIffAllSpace(t);
      if Trim(t) == [] then None else Some(Trim(t))
  }

  /** A kept value is already trimmed: cleaning it again changes nothing. */
  lemma TrimOrNullIdempotent(value: Option<string>)
    ensures TrimOrNull(TrimOrNull(value)) == TrimOrNull(value)
  {
    if value.Some? {
      TrimIdempotent(value.value);
    }
  }

  /** `sanitizeQuoteValidUntil`: null unless the rental is a quote; for a
      quote, the trimmed validity date, or null when blank. */
  function SanitizeQuoteValidUntil(status: RentalStatus, quoteValidUntil: Option<string>): (r: Option<string>)
    ensures r.Some? ==> status == Quote
    ensures status == Quote ==> r == TrimOrNull(quoteValidUntil)
  {
    if status != Quote then None else TrimOrNull(quoteValidUntil)
  }

  /** The stored delivery address: null unless delivering; for a delivery,
      the trimmed address, or null when blank. */
  function StoredDeliveryAddress(mode: DeliveryMode, address: Option<string>): (r: Option<string>)
    ensures r.Some? ==> mode == Delivery
    ensures mode == Delivery ==> r == TrimOrNull(address)
  {
    if mode == Delivery then TrimOrNull(address) else None
  }

  // ---------------------------------------------------------------------
  // The stored header

  /** The columns of a `rentals` row that create and update write (all but
      the id and the two timestamps). Enumerations are stored as text. */
  datatype RentalHeader = RentalHeader(
    clientId: int,
    startDate: string,
    startTime: string,
    endDate: string,
    endTime: string,
    deliveryMode: string,
    deliveryAddress: Option<string>,
    freightValue: real,
    currency: string,
    subtotal: real,
    total: real,
    status: string,
    quoteValidUntil: Option<string>,
    notes: Option<string>)

  /** The header create and update compute from the form input: the
      subtotal from the items, the freight only for a delivery, the total
      as their sum, and the cleaned optional columns. No total comes from
      the caller. */
  function HeaderOf(input: RentalCreateInput): RentalHeader {
    var subtotal := Subtotal(input.items);
    var freight := EffectiveFreight(input.deliveryMode, input.freightValue);
    RentalHeader(
      input.clientId,
      input.startDate, input.startTime, input.endDate, input.endTime,
      DeliveryName(input.deliveryMode),
      StoredDeliveryAddress(input.deliveryMode, input.deliveryAddress),
      freight,
      CurrencyName(input.currency),
      subtotal,
      subtotal + freight,
      StatusName(input.status),
      SanitizeQuoteValidUntil(input.status, input.quoteValidUntil),
      TrimOrNull(input.notes))
  }

  /** A present optional column holds non-blank, trimmed text. */
  predicate Cleaned(v: Option<string>) {
    v.Some? ==> v.value != [] && Trim(v.value) == v.value
  }

  /** What TrimOrNull keeps is cleaned. */
  lemma CleanedOfTrimOrNull(v: Option<string>)
    ensures Cleaned(TrimOrNull(v))
  {
    if v.Some? {
      TrimIdempotent(v.value);
    }
  }

  /** The invariants every header create and update write satisfies: the
      total is subtotal plus freight, freight and address only with a
      delivery, a validity date only on a quote, optional text cleaned. */
  predicate ConsistentHeader(h: RentalHeader) {
    h.total == h.subtotal + h.freightValue
    && (h.deliveryMode != "delivery" ==> h.freightValue == 0.0 && h.deliveryAddress.None?)
    && (h.status != "quote" ==> h.quoteValidUntil.None?)
    && Cleaned(h.deliveryAddress) && Cleaned(h.quoteValidUntil) && Cleaned(h.notes)
  }

  /** What create and update store: the subtotal over the input items, the
      effective freight, a consistent header. */
  lemma HeaderOfInput(input: RentalCreateInput)
    ensures ConsistentHeader(HeaderOf(input))
    ensures HeaderOf(input).subtotal == Subtotal(input.items)
    ensures HeaderOf(input).total == Subtotal(input.items) + EffectiveFreight(input.deliveryMode, input.freightValue)
    ensures HeaderOf(input).clientId == input.clientId
  {
    var h := HeaderOf(input);
    CleanedOfTrimOrNull(input.deliveryAddress);
    CleanedOfTrimOrNull(input.quoteValidUntil);
    CleanedOfTrimOrNull(input.notes);
    if input.deliveryMode == Delivery {
      assert h.deliveryMode == "delivery";
      assert h.deliveryAddress == TrimOrNull(input.deliveryAddress);
    } else {
      assert h.freightValue == 0.0 && h.deliveryAddress.None?;
    }
    if input.status == Quote {
      assert h.status == "quote";
      assert h.quoteValidUntil == TrimOrNull(input.quoteValidUntil);
    } else {
      assert h.quoteValidUntil.None?;
    }
  }

  /** Reading a stored header back through the normalisers gives the
      input's delivery mode, currency and status. */
  lemma HeaderReadsBack(input: RentalCreateInput)
    ensures NormalizeDeliveryMode(HeaderOf(input).deliveryMode) == input.deliveryMode
    ensures NormalizeCurrency(HeaderOf(input).currency) == input.currency
    ensures NormalizeStatus(HeaderOf(input).status) == input.status
  {
    NormalizeOfName(input.deliveryMode, input.currency, input.status);
  }

  // ---------------------------------------------------------------------
  // Quote expiry

  /** `isQuoteExpired`, with today's date passed in: only a quote with a
      validity date that parses as a real date can expire, and it has when
      that date's local midnight is before today's. */
  function IsQuoteExpired(quoteValidUntil: Option<string>, status: RentalStatus, today: Date): bool {
    if status != Quote || quoteValidUntil.None? || quoteValidUntil.value == [] then false
    else match ParseBrDate(quoteValidUntil.value)
      case None => false
      case Some(validUntil) => DayNumber(validUntil) < DayNumber(today)
  }

  /** A quote has expired exactly when its validity date is a valid
      DD/MM/YYYY date strictly before today; a missing or invalid date never
      expires, and nothing but a quote does. */
  lemma QuoteExpiredIff(quoteValidUntil: Option<string>, status: RentalStatus, today: Date)
    requires IsRealDate(today)
    ensures IsQuoteExpired(quoteValidUntil, status, today) <==>
      status == Quote && quoteValidUntil.Some? && IsValidBrDate(quoteValidUntil.value)
      && DateBefore(ParseBrDate(quoteValidUntil.value).value, today)
  {
    if quoteValidUntil.Some? {
      var s := quoteValidUntil.value;
      ParseBrDateValid(s);
      if IsValidBrDate(s) {
        DayNumberOrder(ParseBrDate(s).value, today);
      }
    }
  }

  /** A quote valid until today itself has not expired. */
  lemma ValidUntilTodayNotExpired(s: string, today: Date)
    requires ParseBrDate(s) == Some(today)
    ensures !IsQuoteExpired(Some(s), Quote, today)
  {
  }

  /** The status a read reports: an expired quote is canceled, anything
      else keeps its status (`expireQuoteIfNeeded`'s result). */
  function StatusAfterExpiry(status: RentalStatus, quoteValidUntil: Option<string>, today: Date): (r: RentalStatus)
    ensures r != Quote || !IsQuoteExpired(quoteValidUntil, status, today)
    ensures IsQuoteExpired(quoteValidUntil, status, today) ==> r == Canceled
    ensures !IsQuoteExpired(quoteValidUntil, status, today) ==> r == status
  {
    if IsQuoteExpired(quoteValidUntil, status, today) then Canceled else status
  }

  /** Expiry is settled once: the reported status is never expired again. */
  lemma StatusAfterExpiryIdempotent(status: RentalStatus, quoteValidUntil: Option<string>, today: Date)
    ensures StatusAfterExpiry(StatusAfterExpiry(status, quoteValidUntil, today), quoteValidUntil, today)
            == StatusAfterExpiry(status, quoteValidUntil, today)
  {
  }
}
