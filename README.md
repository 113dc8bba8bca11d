# locaprox rental engine — a Dafny model

locaprox is an offline equipment-rental app: a shop registers clients and
equipment, builds rentals and quotes from a cart of equipment, and prints
them as PDF documents. Everything is kept in an on-device SQLite database.
This project models the parts of the app that compute, validate and store.
It proves what they promise.

- **The rental engine** (`rentalService.ts`). Line totals, subtotal, the
  freight that counts and the total. The cleaning of optional columns by
  status and delivery mode. The mapping of legacy or unknown enumeration
  text to safe values. create and update as all-or-nothing transactions
  over in-memory `rentals` and `rental_items` tables. Quote expiry against
  a "today" passed in. The expiry writes that getById and list make.
  Modules `RentalRules`, `RentalRows` and `RentalStore`. The store is a
  class whose tables are sequences. A statement the database rejects is
  an oracle argument, `failAt`, so that rollback can be stated.
- **Pricing rules and settings** (`settingsService.ts`). The factor of
  each rental mode. The defensive reading of the key/value settings table.
  The nine-key upsert, as a loop of single statements. Module `Settings`.
- **Input parsing** (`format.ts`, and the date helpers of
  `RentalFormScreen.tsx` and `rentalService.ts`). The decimal reader for
  Brazilian and dotted notation. DD/MM/YYYY and HH:MM validation. The
  date-time comparison. Date and time formatting. Modules `Format`,
  `DateFormat`, `Calendar`, `JsNumber` and `Text`. `Calendar` is the one
  model of dates that all three copies of the date parser share. It
  follows ECMAScript's MakeDay, including the rule that years 0 to 99 mean
  1900 to 1999.
- **The rental form** (`RentalFormScreen.tsx`). The cart of items, with
  its stock bound. The queue of equipment picked but not confirmed. The
  picker's filter. The ordered checks that gate saving, and the payload.
  Module `RentalForm`. The component state is a class.
- **Small validators and formatters.** The company-document (CPF/CNPJ)
  formatter and the settings save check (`SettingsScreen.tsx`, module
  `SettingsScreen`). The equipment form (`EquipmentsScreen.tsx`, module
  `EquipmentForm`). HTML escaping, file-name sanitising and the PDF's field
  selection (`pdfTemplate.ts`, module `PdfTemplate`). The app store
  (`useAppStore.ts`, module `AppStore`).

JavaScript numbers are modelled as `real`, without IEEE rounding. Stock
and quantities are `int`. `parseFloat` and `parseInt` are concrete prefix
parsers that return `None` for NaN. `String(number)` writes an integer
part and up to 17 fraction digits. The clock is never read: "today" and
"now" are arguments, and the timestamps the service writes are opaque
strings.

One description of the app says that a rental's items keep the equipment
name they had when the rental was made. The code has no such column:
getById joins the equipment's current name (`rentalService.ts:358-363`),
and the model follows the code (`RentalRows.JoinEquipment`).

## Model

| member | source | states |
|---|---|---|
| RentalRules.SubtotalAppend | src/database/services/rentalService.ts:152 | the subtotal of two item lists one after the other is the sum of their subtotals (also line 12) |
| RentalRules.SubtotalCons | src/database/services/rentalService.ts:152 | the subtotal is the first item's quantity × unit price plus the subtotal of the rest (also line 12) |
| RentalRules.SubtotalNonNegative | src/database/services/rentalService.ts:152 | items with no negative quantity or price have a subtotal ≥ 0 (also line 12) |
| RentalRules.EffectiveFreight | src/database/services/rentalService.ts:153 | the freight is the input freight for a delivery and 0 for a pickup (also line 232) |
| RentalRules.NormalizeDeliveryMode | src/database/services/rentalService.ts:14-16 | delivery exactly when the text is 'delivery', otherwise pickup |
| RentalRules.NormalizeCurrency | src/database/services/rentalService.ts:18-24 | USD and EUR exactly for their own text; BRL for every other text |
| RentalRules.NormalizeStatus | src/database/services/rentalService.ts:26-40 | completed iff 'completed' or 'closed'; canceled iff 'canceled'; quote iff 'quote' or 'draft'; in progress iff none of these |
| RentalRules.NormalizeOfName | src/database/services/rentalService.ts:14-40 | each normaliser reads back the text its value is stored as |
| RentalRules.NormalizeIdempotent | src/database/services/rentalService.ts:14-40 | normalising the stored text of a normalised value gives that value again |
| RentalRules.TrimOrNull | src/database/services/rentalService.ts:195 | null iff absent or blank; otherwise the trimmed text, never empty (also line 188) |
| RentalRules.TrimOrNullIdempotent | src/database/services/rentalService.ts:195 | cleaning a cleaned value changes nothing (also line 188) |
| RentalRules.SanitizeQuoteValidUntil | src/database/services/rentalService.ts:83-93 | a validity date is kept only for a quote; for a quote it is the trimmed text, or null when blank |
| RentalRules.StoredDeliveryAddress | src/database/services/rentalService.ts:188 | an address is kept only for a delivery; for a delivery it is the trimmed text, or null when blank (also line 267) |
| RentalRules.CleanedOfTrimOrNull | src/database/services/rentalService.ts:195 | a kept optional text is non-empty and already trimmed (also line 188) |
| RentalRules.HeaderOfInput | src/database/services/rentalService.ts:150-198 | the stored header is consistent: total = subtotal + freight; freight and address only for a delivery; validity only for a quote; subtotal = Σ quantity × price of the input items; no caller-supplied total |
| RentalRules.HeaderReadsBack | src/database/services/rentalService.ts:14-40 | reading a stored header through the normalisers gives back the input's delivery mode, currency and status (also lines 186-196) |
| RentalRules.QuoteExpiredIff | src/database/services/rentalService.ts:42-81 | expired iff the status is quote and the validity is a valid DD/MM/YYYY date strictly before today |
| RentalRules.ValidUntilTodayNotExpired | src/database/services/rentalService.ts:66-81 | a quote valid until today has not expired |
| RentalRules.StatusAfterExpiry | src/database/services/rentalService.ts:127-146 | an expired quote is reported canceled; every other row, including a canceled, in-progress or closed one and a quote still valid, keeps its stored status; so the status reported is never an expired quote |
| RentalRules.StatusAfterExpiryIdempotent | src/database/services/rentalService.ts:127-146 | expiring twice gives the same status as expiring once |
| RentalRows.ItemRowsOfIndex | src/database/services/rentalService.ts:207-217 | item row k has id firstId + k, belongs to the rental, copies item k, and stores quantity × unit price as line total |
| RentalRows.SumLineTotalsOfItems | src/database/services/rentalService.ts:207-217 | the stored line totals add up to the stored subtotal (also line 152) |
| RentalRows.ItemsOfRental | src/database/services/rentalService.ts:364 | `WHERE ri.rental_id = ?` keeps at most the table's rows |
| RentalRows.ItemsOfRentalMembers | src/database/services/rentalService.ts:364 | the rows selected are exactly the table's rows of that rental |
| RentalRows.RemoveItemsOf | src/database/services/rentalService.ts:280 | the delete keeps at most the table's rows |
| RentalRows.RemoveItemsOfMembers | src/database/services/rentalService.ts:280 | the rows kept by the delete are exactly the rows of other rentals |
| RentalRows.ItemsOfRentalAppend | src/database/services/rentalService.ts:364 | selecting one rental's rows distributes over concatenation |
| RentalRows.ItemsOfRentalNone | src/database/services/rentalService.ts:364 | a table with no rows of the rental selects nothing |
| RentalRows.RemoveItemsOfNone | src/database/services/rentalService.ts:280 | deleting the rows of a rental with no rows changes nothing |
| RentalRows.ItemsOfRentalAll | src/database/services/rentalService.ts:364 | a table holding only the rental's rows selects all of them |
| RentalRows.ItemsOfRentalAscending | src/database/services/rentalService.ts:365 | the selection keeps ascending item-id order, which is `ORDER BY ri.id ASC` |
| RentalRows.JoinEquipment | src/database/services/rentalService.ts:358-363 | the join keeps at most one draft item per item row |
| RentalRows.WithLiveNames | src/database/services/rentalService.ts:358-363 | renaming keeps the item count |
| RentalRows.JoinEquipmentOfItems | src/database/services/rentalService.ts:356-365 | the rows inserted for some items read back as those items, in order, under the equipment's current names (also lines 396-401) |
| RentalRows.RowIndex | src/database/services/rentalService.ts:341-347 | the position of a row with that id; None iff no row has it |
| RentalRows.CancelId | src/database/services/rentalService.ts:136-145 | the cancel UPDATE keeps the number of rows; its content is stated by CancelIdRows |
| RentalRows.CancelIdRows | src/database/services/rentalService.ts:136-145 | the row with that id reads as canceled with `updated_at` = now, keeping its id, creation time and every other column; every other row is unchanged |
| RentalRows.CancelAll | src/database/services/rentalService.ts:103-112 | one cancel UPDATE per id keeps the number of rows |
| RentalRows.CancelAllStep | src/database/services/rentalService.ts:103-112 | the loop's invariant: cancelling one more id is one more UPDATE |
| RentalRows.UpdateHeader | src/database/services/rentalService.ts:240-278 | the header UPDATE keeps the number of rows; its content is stated by UpdateHeaderRows |
| RentalRows.UpdateHeaderRows | src/database/services/rentalService.ts:240-278 | the row with that id gets the new columns and `updated_at` = now, keeping its id and creation time; every other row is unchanged |
| RentalRows.SweepRows | src/database/services/rentalService.ts:95-125 | the expiry sweep keeps the number of rows |
| RentalRows.SweepIdempotent | src/database/services/rentalService.ts:95-125 | after a sweep no row is an expired quote, and a second sweep on the same day, at any later timestamp, changes nothing |
| RentalRows.SweepKeeps | src/database/services/rentalService.ts:95-125 | a sweep changes only the status and updated_at of expired quotes, which become canceled; ids, clients, dates, amounts and creation times are kept |
| RentalRows.TextLeTotal | src/database/services/rentalService.ts:450 | the text order of `created_at` is total |
| RentalRows.TextLeTrans | src/database/services/rentalService.ts:450 | the text order of `created_at` is transitive |
| RentalRows.InsertNewestFirst | src/database/services/rentalService.ts:450 | inserting into the list adds exactly that entry |
| RentalRows.InsertNewestFirstSorted | src/database/services/rentalService.ts:450 | inserting into a newest-first list keeps it newest first |
| RentalRows.SortNewestFirst | src/database/services/rentalService.ts:450 | the list order is a permutation of the joined rows |
| RentalRows.SortNewestFirstSorted | src/database/services/rentalService.ts:450 | `ORDER BY r.created_at DESC`: the list is newest first and holds exactly the joined rows |
| RentalRows.JoinClients | src/database/services/rentalService.ts:447 | the client join keeps at most the table's rows |
| RentalRows.JoinClientsMembers | src/database/services/rentalService.ts:447 | the entries are exactly the rows whose client exists, each with that client's name |
| RentalRows.ListQuery | src/database/services/rentalService.ts:405-481 | the list has one entry per rental with an existing client; its entries are stated by ListQueryEntries |
| RentalRows.ListQueryEntries | src/database/services/rentalService.ts:405-481 | entry k is the k-th joined rental newest first: its id, client id, the client's name from the clients table, normalised status, item count and whether it is an expired quote; every entry comes from a rental row with that id and client |
| RentalRows.ExpiredIdsMembers | src/database/services/rentalService.ts:96-98 | the ids collected are exactly those of list entries that are expired quotes |
| RentalRows.ExpireListItem | src/database/services/rentalService.ts:115-124 | a returned entry is never an expired quote |
| RentalRows.ApplyExpiry | src/database/services/rentalService.ts:115-124 | the returned list keeps its length; its entries are stated by ApplyExpiryEntries |
| RentalRows.ApplyExpiryEntries | src/database/services/rentalService.ts:115-124 | entry k is entry k of the query, with the same id; it differs exactly when that entry is an expired quote, and then only by the status, which is canceled |
| RentalRows.ExpiredIdsOfRows | src/database/services/rentalService.ts:95-112 | with every client present, an id is cancelled by list iff its row is an expired quote (also lines 479-481) |
| RentalRows.CancelExpiredIsSweep | src/database/services/rentalService.ts:95-112 | list's UPDATE loop is the sweep: exactly the expired quotes become canceled |
| RentalRows.DetailsOfInput | src/database/services/rentalService.ts:301-402 | a rental stored from an input reads back with that input's client, dates, times, mode, currency, subtotal and total, and with its status unless it is an expired quote |
| RentalStore.PassesFromEach | src/database/services/rentalService.ts:157-225 | no statement in a range fails iff each statement in the range passes |
| RentalStore.AscendingUnique | src/database/services/rentalService.ts:341-347 | ascending AUTOINCREMENT ids are unique, so getById finds at most one row |
| RentalStore.ItemsOkMoreRentals | src/database/services/rentalService.ts:207-217 | the item table stays valid when rentals are added |
| RentalStore.TablesOfSameKeys | src/database/services/rentalService.ts:103-112 | rewriting rental rows without changing ids or clients keeps both tables valid (also lines 136-145) |
| RentalStore.AppendRentalOk | src/database/services/rentalService.ts:161-199 | the header insert with the next id and an existing client keeps the rentals table valid |
| RentalStore.AppendItemsOk | src/database/services/rentalService.ts:207-217 | inserting items of an existing rental and existing equipment keeps the item table valid |
| RentalStore.RemoveItemsOfAscending | src/database/services/rentalService.ts:280 | the delete keeps item ids ascending |
| RentalStore.RemoveItemsOk | src/database/services/rentalService.ts:280 | the delete keeps the item table valid |
| RentalStore.UpdateHeaderKeeps | src/database/services/rentalService.ts:240-278 | the header UPDATE keeps the set of rental ids |
| RentalStore.UpdateHeaderOk | src/database/services/rentalService.ts:240-278 | the header UPDATE keeps the rentals table valid |
| RentalStore.CreatePreserves | src/database/services/rentalService.ts:149-226 | a committed create keeps ids and foreign keys valid |
| RentalStore.UpdatePreserves | src/database/services/rentalService.ts:228-299 | a committed update keeps ids and foreign keys valid |
| RentalStore.CreateThenItems | src/database/services/rentalService.ts:149-226 | after create, the rental's items read back as the input items in input order (also lines 350-366) |
| RentalStore.UpdateThenItems | src/database/services/rentalService.ts:228-299 | after update, the rental's items are exactly the input items in input order: full replacement (also lines 350-366) |
| RentalStore.UpdateUnknown | src/database/services/rentalService.ts:228-299 | updating an unknown id with items fails; without items it changes nothing |
| RentalStore.RentalStore.constructor | src/database/schema.ts:28-59 | empty, valid tables with both counters at 1 |
| RentalStore.RentalStore.Create | src/database/services/rentalService.ts:149-226 | commits iff every statement passes and the client and equipment exist; on commit, one header with the next id plus one item row per input item in input order; otherwise tables and counters as before |
| RentalStore.RentalStore.InsertItems | src/database/services/rentalService.ts:207-217 | the insert loop: ok iff every insert passes; then the items are appended as rows |
| RentalStore.RentalStore.Update | src/database/services/rentalService.ts:228-299 | commits iff every statement passes; on commit, the header is overwritten and the rental's items are replaced by the input items; otherwise tables and counters as before |
| RentalStore.RentalStore.UpdateStatements | src/database/services/rentalService.ts:238-292 | the statements inside update's transaction: ok iff every one passes; then the header is overwritten and the items replaced |
| RentalStore.RentalStore.ReplaceItems | src/database/services/rentalService.ts:280-292 | the delete and the insert loop: ok iff every statement passes; then the old rows are gone and the new ones appended |
| RentalStore.RentalStore.GetById | src/database/services/rentalService.ts:301-403 | None iff there is no such id, and then nothing changes; otherwise the row's details with the joined items, and the row is cancelled iff it is an expired quote |
| RentalStore.RentalStore.List | src/database/services/rentalService.ts:405-483 | the list query with expired quotes shown as canceled; the table after the call is the sweep of the table before |
| RentalStore.RentalStore.CancelEach | src/database/services/rentalService.ts:100-113 | the write loop: every listed id is cancelled, and nothing else changes |
| RentalStore.SweepKeepsTables | src/database/services/rentalService.ts:100-113 | the expiry writes keep ids and foreign keys valid |
| RentalStore.RentalStore.Count | src/database/services/rentalService.ts:485-488 | the number of rentals |
| Settings.GetSuggestedValues | src/database/services/settingsService.ts:70-72 | positive defaults, weekly < fortnightly < monthly (6 / 12 / 24) (also lines 23-27) |
| Settings.GetFactorForMode | src/database/services/settingsService.ts:74-88 | 1 for daily; positive under positive rules |
| Settings.RateDaily | src/database/services/settingsService.ts:90-92 | a daily rental costs the daily rate |
| Settings.RateSign | src/database/services/settingsService.ts:90-92 | under positive rules the rate is positive iff the daily rate is, and 0 iff it is 0 |
| Settings.DefaultRates | src/database/services/settingsService.ts:90-92 | under the defaults a daily rate of 100 gives 600 weekly, 1200 fortnightly and 2400 monthly (also lines 23-27) |
| Settings.ToNumber | src/database/services/settingsService.ts:39-51 | the fallback, or a positive value parseFloat reads from a non-empty text; a positive reading is always taken |
| Settings.ToNumberPositive | src/database/services/settingsService.ts:39-51 | with a positive fallback the result is positive, so every resolved factor is > 0 (also lines 109-116) |
| Settings.ToNumberOfString | src/database/services/settingsService.ts:39-51 | a positive number that String writes exactly reads back unchanged (also lines 142-144) |
| Settings.ToCurrency | src/database/services/settingsService.ts:53-59 | USD iff 'USD', EUR iff 'EUR', otherwise BRL |
| Settings.ToCurrencyOfName | src/database/services/settingsService.ts:53-59 | every currency's stored name reads back (also line 130) |
| Settings.ToReminderOption | src/database/services/settingsService.ts:61-67 | none iff 'none', 1h iff '1h', otherwise 1d |
| Settings.ToReminderOfName | src/database/services/settingsService.ts:61-67 | every reminder's stored name reads back (also lines 134-135) |
| Settings.EndReminderFallbackAsWritten | src/database/services/settingsService.ts:61-67 | as written, a missing or unknown end reminder reads as 1d, not the default 1h (also lines 36 and 122) |
| Settings.ToReminderOr | src/database/services/settingsService.ts:61-67 | the three names read as themselves; anything else gives the field's own default |
| Settings.ToReminderOrOfName | src/database/services/settingsService.ts:61-67 | every reminder's stored name reads back, whatever the fallback |
| Settings.ToReminderOrAgrees | src/database/services/settingsService.ts:61-67 | with fallback 1d it is exactly toReminderOption |
| Settings.Lookup | src/database/services/settingsService.ts:110-122 | `map.get`: a value iff the key is present, and then the stored value (also line 106) |
| Settings.SettingsRows | src/database/services/settingsService.ts:97-104 | the query returns exactly the table's entries under the nine keys |
| Settings.FromStored | src/database/services/settingsService.ts:108-123 | the corrected reading of these lines (the end reminder falls back to its own default, 1h, where line 122 gives 1d): every resolved factor is positive |
| Settings.GetSettings | src/database/services/settingsService.ts:96-126 | the corrected getSettings (end reminder falling back to 1h): never fails, and every resolved factor is positive |
| Settings.GetSettingsAsWritten | src/database/services/settingsService.ts:96-126 | getSettings as written, both reminders through toReminderOption: every factor positive, and it equals the corrected GetSettings except in the end reminder, which differs exactly when the stored value is missing or not one of none/1h/1d |
| Settings.GetSettingsAsWrittenOfEmpty | src/database/services/settingsService.ts:96-126 | as written, an empty table reads as the default settings except that the end reminder is 1d instead of 1h (also lines 29-37 and 122) |
| Settings.GetSettingsOfEmpty | src/database/services/settingsService.ts:96-126 | under the corrected reading, an empty table reads as the default settings (also lines 29-37) |
| Settings.GetSettingsOnlyKeys | src/database/services/settingsService.ts:96-126 | only the nine keys matter: tables that agree on them read alike |
| Settings.PayloadValues | src/database/services/settingsService.ts:129-139 | one value per key |
| Settings.Payload | src/database/services/settingsService.ts:129-139 | the nine (key, value) pairs in key order |
| Settings.UpsertOther | src/database/services/settingsService.ts:141-150 | a key no pair names keeps its entry or its absence |
| Settings.UpsertLast | src/database/services/settingsService.ts:141-150 | a key named by a pair and no later one holds that pair's value |
| Settings.SettingsKeysDistinct | src/database/services/settingsService.ts:11-21 | the nine keys are distinct |
| Settings.SavedValue | src/database/services/settingsService.ts:128-151 | after a save, each key holds its payload value |
| Settings.SavedRow | src/database/services/settingsService.ts:96-151 | getSettings' query then sees each payload value |
| Settings.SaveTouchesOnlyKeys | src/database/services/settingsService.ts:128-151 | a save writes exactly the nine keys and leaves every other key as it was |
| Settings.FromStoredOfSaved | src/database/services/settingsService.ts:108-123 | reading back the saved values of storable settings gives those settings (also lines 129-139) |
| Settings.SaveThenGet | src/database/services/settingsService.ts:96-151 | saving positive, exactly written factors and trimmed texts, then getSettings, gives the same settings |
| Settings.SaveThenGetAsWritten | src/database/services/settingsService.ts:96-151 | with getSettings as written, saving storable settings and reading them back still gives the same settings: a saved end reminder is always one of none/1h/1d, so the 1d fallback never applies to it |
| Settings.SettingsTable.constructor | src/database/services/settingsService.ts:96-106 | a table with the given entries |
| Settings.SettingsTable.SaveSettings | src/database/services/settingsService.ts:128-151 | ok iff no upsert fails; then all nine pairs are upserted; otherwise exactly the upserts before the failing one are kept (there is no transaction) |
| Settings.SettingsTable.UpsertEach | src/database/services/settingsService.ts:141-150 | the upsert loop: ok iff no statement fails; the table is the upsert of the pairs, or of those before the failure |
| Text.Trim | src/utils/format.ts:18 | `.trim()`: never longer, and no white space at either end; what it cuts off is stated by TrimMiddle |
| Text.TrimMiddle | src/utils/format.ts:18 | `.trim()` returns a slice s[i..j] of its input, where everything before i and after j is white space |
| Text.TrimEmptyIffAllSpace | src/utils/format.ts:18-22 | trimming gives '' iff the text is all white space |
| Text.TrimIdempotent | src/utils/format.ts:18 | trimming twice is trimming once |
| Text.RemoveSpaces | src/utils/format.ts:18 | `replace(/\s/g, '')`: never longer, and '' iff the text is all white space |
| Text.RemoveSpacesAppend | src/utils/format.ts:18 | removing white space distributes over concatenation |
| Text.RemoveSpacesIdempotent | src/utils/format.ts:18 | removing white space twice is removing it once |
| Text.RemoveSpacesOfTrim | src/utils/format.ts:18 | trimming before removing white space changes nothing |
| Text.RemoveChar | src/utils/format.ts:26 | `replace(/\./g, '')`: no such character is left; a text without it is unchanged |
| Text.RemoveCharAppend | src/utils/format.ts:26 | removing a character distributes over concatenation |
| Text.ReplaceFirst | src/utils/format.ts:26-28 | `replace(',', '.')`: same length; a text without ',' is unchanged |
| Text.ReplaceFirstAfter | src/utils/format.ts:26-28 | the part before the first occurrence is left alone |
| Text.ReplaceAllChar | src/utils/pdfTemplate.ts:109 | `replace(/\//g, '-')`: every occurrence replaced, every other character kept |
| Text.Split | src/utils/format.ts:87 | `split(sep)`: at least one piece, and no piece contains the separator |
| Text.SplitFirst | src/utils/format.ts:87 | splitting at the first separator gives the part before it, then the pieces of the rest |
| Text.AsciiLower | src/screens/RentalFormScreen.tsx:344 | `toLowerCase` on ASCII: same length; each upper-case letter lowered, every other character kept |
| JsNumber.ParseInt | src/screens/EquipmentsScreen.tsx:150 | `Number.parseInt(s, 10)` reads a number iff at least one digit follows the optional sign |
| JsNumber.ParseIntDigits | src/utils/format.ts:61-63 | a digit string reads as its value |
| JsNumber.NatToString | src/utils/format.ts:41 | `String(n)`: decimal digits, no leading zero, whose value is n |
| JsNumber.NatToStringOfDigits | src/utils/format.ts:41 | a numeral without a leading zero is written back exactly |
| JsNumber.ParseFloatOfNumeral | src/database/services/settingsService.ts:45 | parseFloat reads a signed decimal numeral as its value |
| JsNumber.NumberToDigitsRoundTrip | src/database/services/settingsService.ts:136-138 | parseFloat reads back a number written with enough fraction digits (also line 45) |
| JsNumber.ParseFloatNumberToString | src/database/services/settingsService.ts:136-138 | parseFloat(String(x)) == x for every x that String writes exactly (also line 45) |
| JsNumber.NumberToStringChars | src/database/services/settingsService.ts:136-138 | the model of String, which writes positional notation only, gives a non-empty text of digits, '-' and '.' |
| Calendar.DaysInMonth | src/utils/format.ts:53-71 | 28 to 31 days; 29 exactly for February of a leap year |
| Calendar.JsFullYear | src/utils/format.ts:64 | `new Date` reads years 0 to 99 as 1900 to 1999, and any other year as itself |
| Calendar.DayFromYearStep | src/utils/format.ts:64 | each year adds its own length to the day count |
| Calendar.DayNumberOfRealDate | src/utils/format.ts:64 | a real date's day number falls within its year |
| Calendar.DayNumberBefore | src/database/services/rentalService.ts:75-80 | an earlier real date has a smaller day number |
| Calendar.DayNumberOrder | src/database/services/rentalService.ts:75-80 | on real dates, day numbers are ordered as (year, month, day), and equal only for equal dates |
| Calendar.DenotesItself | src/utils/format.ts:64-70 | the Date getters give back the arguments iff they name a real date in a year outside 0 to 99 |
| Format.ReadNormalized | src/utils/format.ts:32-38 | 0 for an empty or unreadable text; otherwise parseFloat's reading |
| Format.ParseDecimalBlank | src/utils/format.ts:17-22 | blank input reads as 0 |
| Format.ParseDecimalIgnoresSpaces | src/utils/format.ts:18 | white space anywhere in the input is ignored |
| Format.SeparatorsBrazilian | src/utils/format.ts:24-30 | with both ',' and '.', the dots are dropped and the comma becomes the decimal point |
| Format.ParseDecimalBrazilian | src/utils/format.ts:17-39 | '1.234,56'-style input reads as its integer digits plus its fraction |
| Format.ParseDecimalDotted | src/utils/format.ts:17-39 | '1234.56'-style input reads as its value |
| Format.ParseDecimalExample | src/utils/format.ts:17-39 | '1.234,56' reads as 1234.56 |
| Format.ParseDecimalNumberToString | src/screens/EquipmentsScreen.tsx:148-149 | a number String writes exactly reads back through parseDecimalInput (also lines 117-118) |
| Format.ParseBrDateValid | src/utils/format.ts:53-71 | parseBrDate succeeds iff isValidBrDate holds, iff the text is DD/MM/YYYY naming a real date in a year ≥ 100; the date read is the one written |
| Format.CompareBrDateTime | src/utils/format.ts:96-116 | only -1, 0 or 1; anything but 1 means both instants are valid |
| Format.CompareSelf | src/utils/format.ts:96-116 | identical arguments compare as 0, or as 1 when they name no instant |
| Format.CompareSwap | src/utils/format.ts:96-116 | on valid instants, swapping start and end negates the result |
| Format.BrDatePartsOfValid | src/utils/format.ts:86-94 | brDateToParts of a DD/MM/YYYY text gives its day, month and year |
| Format.TimePartsOfValid | src/utils/format.ts:100-101 | a valid HH:MM splits into its hour and minute |
| Format.CompareValid | src/utils/format.ts:86-116 | on valid dates and times the comparison is the lexicographic order of (year, month, day, hour, minute) |
| DateFormat.PadZeros | src/utils/format.ts:41 | `padStart(width, '0')`: the width reached, a long text left alone |
| DateFormat.Pad2Value | src/utils/format.ts:41 | pad2 of 0 to 99 is two digits that read back as the number |
| DateFormat.Pad2OfDigits | src/utils/format.ts:41 | pad2 of a two-digit text's value is that text |
| DateFormat.ParseFormatPadded | src/screens/RentalFormScreen.tsx:103-133 | a real date in years 100 to 9999, written with a padded year, parses back to itself |
| DateFormat.FormatParsePadded | src/screens/RentalFormScreen.tsx:103-133 | every valid DD/MM/YYYY parses and is written back exactly when the year is padded |
| DateFormat.FormatParseFourDigitYear | src/screens/RentalFormScreen.tsx:103-133 | formatBrDate(parseBrDate(s)) == s for a valid s whose year does not start with 0 |
| DateFormat.FormatParseShortYear | src/screens/RentalFormScreen.tsx:127-133 | as written, for a valid s whose year starts with 0, formatBrDate(parseBrDate(s)) is shorter than s and not valid |
| DateFormat.ShortYearExample | src/screens/RentalFormScreen.tsx:127-133 | '01/01/0100' is a valid date with such a year |
| DateFormat.FormatHHmmValid | src/screens/RentalFormScreen.tsx:135-140 | formatHHmm (and nowHHmm) of a time of day is a valid HH:MM naming that time |
| DateFormat.FormatHHmmOfValid | src/screens/RentalFormScreen.tsx:135-140 | every valid HH:MM is formatHHmm of the time it names |
| RentalForm.NormalizedFreightIsEffective | src/screens/RentalFormScreen.tsx:289-297 | the form's freight is the service's effective freight; 0 for a pickup |
| RentalForm.FindItem | src/screens/RentalFormScreen.tsx:424 | None iff no item has the id; otherwise an item of the list with it |
| RentalForm.RemoveItemOf | src/screens/RentalFormScreen.tsx:419-421 | the items kept are exactly those with another id |
| RentalForm.RemoveItemAt | src/screens/RentalFormScreen.tsx:419-421 | with distinct ids, removing an item drops only it; the others keep their order |
| RentalForm.RemoveItemAbsent | src/screens/RentalFormScreen.tsx:419-421 | removing an id not in the list changes nothing |
| RentalForm.SetQuantity | src/screens/RentalFormScreen.tsx:443-449 | only the matching item's quantity changes, in place |
| RentalForm.SetUnitPrice | src/screens/RentalFormScreen.tsx:452-462 | only the matching item's unit price changes, in place |
| RentalForm.RewriteKeepsIds | src/screens/RentalFormScreen.tsx:443-462 | those rewrites keep the set of ids and their distinctness |
| RentalForm.FindEquipment | src/screens/RentalFormScreen.tsx:407-409 | None iff no equipment has the id |
| RentalForm.QuantityChange | src/screens/RentalFormScreen.tsx:423-450 | absent id: no change; new quantity ≤ 0: the item removed; above the stock: no change; otherwise only that quantity set; no quantity outside 1..stock is ever written |
| RentalForm.QuantityChangeKeepsDistinct | src/screens/RentalFormScreen.tsx:423-450 | a quantity change keeps ids distinct |
| RentalForm.RemoveKeepsDistinct | src/screens/RentalFormScreen.tsx:419-421 | removing keeps ids distinct |
| RentalForm.Enqueue | src/screens/RentalFormScreen.tsx:696-704 | the queue gains the id and nothing else, never twice |
| RentalForm.Dequeue | src/screens/RentalFormScreen.tsx:706-708 | the queue loses exactly that id |
| RentalForm.PendingEquipments | src/screens/RentalFormScreen.tsx:319-327 | the queued equipment that exists; empty iff none of the queued ids exists |
| RentalForm.ConfirmKeepsItems | src/screens/RentalFormScreen.tsx:710-738 | existing items are kept, untouched, at the front |
| RentalForm.ConfirmAddsOffered | src/screens/RentalFormScreen.tsx:716-735 | each new item is a queued equipment in stock, with quantity 1 and the mode's rate |
| RentalForm.ConfirmDistinct | src/screens/RentalFormScreen.tsx:716-735 | no equipment id is ever listed twice |
| RentalForm.ConfirmComplete | src/screens/RentalFormScreen.tsx:716-735 | every queued equipment in stock ends up in the list |
| RentalForm.ConfirmKeepsIds | src/screens/RentalFormScreen.tsx:716-735 | no id is lost |
| RentalForm.FilterEquipments | src/screens/RentalFormScreen.tsx:343-361 | exactly the equipment neither listed nor queued that matches the search |
| RentalForm.FilteredOffersOnlyNew | src/screens/RentalFormScreen.tsx:343-361 | nothing listed or queued is offered; a blank search offers everything else |
| RentalForm.ScheduleError | src/screens/RentalFormScreen.tsx:475-488 | only the date, time or order alerts |
| RentalForm.DeliveryError | src/screens/RentalFormScreen.tsx:490-498 | only the address or freight alerts |
| RentalForm.ScheduleErrorIff | src/screens/RentalFormScreen.tsx:475-488 | no alert iff both dates and both times are valid and the start is not after the end |
| RentalForm.DeliveryErrorIff | src/screens/RentalFormScreen.tsx:490-498 | no alert iff it is a pickup, or a delivery with an address and freight ≥ 0 |
| RentalForm.QuoteErrorIff | src/screens/RentalFormScreen.tsx:500-525 | no alert iff it is not a quote, or its validity is a valid date not before today; the unreadable-date alert is unreachable |
| RentalForm.ValidityFacts | src/screens/RentalFormScreen.tsx:500-525 | a valid validity date is non-blank, parses, and is before today iff its day number is |
| RentalForm.ValidateSaveIff | src/screens/RentalFormScreen.tsx:464-530 | onSave reaches the service iff a client and items are chosen, the schedule, delivery and quote checks pass and the total is > 0 |
| RentalForm.ValidateSaveResult | src/screens/RentalFormScreen.tsx:535-549 | what passes is the payload of the form |
| RentalForm.SavedRental | src/screens/RentalFormScreen.tsx:535-549 | the payload has a validity date iff it is a quote; the service stores the form's subtotal and total, the total is > 0, and a saved quote has not expired |
| RentalForm.AppendChosen | src/screens/RentalFormScreen.tsx:716-735 | the for-loop builds exactly the confirmed list |
| RentalForm.FormState.constructor | src/screens/RentalFormScreen.tsx:153-206 | the given draft and an empty queue |
| RentalForm.FormState.RemoveItem | src/screens/RentalFormScreen.tsx:419-421 | only the items change, to the list without that id |
| RentalForm.FormState.UpdateQuantity | src/screens/RentalFormScreen.tsx:423-450 | only the items change, as QuantityChange says |
| RentalForm.FormState.UpdateUnitPrice | src/screens/RentalFormScreen.tsx:452-462 | only the matching item's price changes, to the decimal read from the text |
| RentalForm.FormState.Queue | src/screens/RentalFormScreen.tsx:696-704 | only the queue changes, by Enqueue |
| RentalForm.FormState.RemoveQueued | src/screens/RentalFormScreen.tsx:706-708 | only the queue changes, by Dequeue |
| RentalForm.FormState.ConfirmEquipmentSelection | src/screens/RentalFormScreen.tsx:710-738 | with nothing to confirm nothing changes; otherwise the confirmed list and an empty queue |
| RentalForm.FormState.OnStatusPress | src/screens/RentalFormScreen.tsx:600-606 | the status is set; a status other than quote clears the validity date |
| SettingsScreen.KeepDigits | src/screens/SettingsScreen.tsx:93 | `replace(/\D/g, '')`: only digits, never longer |
| SettingsScreen.KeepDigitsAppend | src/screens/SettingsScreen.tsx:93 | keeping digits distributes over concatenation |
| SettingsScreen.Slice | src/screens/SettingsScreen.tsx:97-101 | `slice(lo, hi)`'s length, clipped to the text (also line 93) |
| SettingsScreen.NormalizeDocumentDigits | src/screens/SettingsScreen.tsx:92-94 | only digits: the first ≤ 14 digits of the input, in order |
| SettingsScreen.NormalizeDocumentIdempotent | src/screens/SettingsScreen.tsx:92-94 | normalising twice is normalising once |
| SettingsScreen.GroupDigits | src/screens/SettingsScreen.tsx:103-114 | a separator appears only before a non-empty group |
| SettingsScreen.CpfDigits | src/screens/SettingsScreen.tsx:96-104 | the CPF layout keeps the digits, with one separator per non-empty later group |
| SettingsScreen.CnpjDigits | src/screens/SettingsScreen.tsx:106-115 | the CNPJ layout keeps the digits, with one separator per non-empty later group |
| SettingsScreen.FullCpf | src/screens/SettingsScreen.tsx:96-104 | 11 digits are written 3.3.3-2 |
| SettingsScreen.FullCnpj | src/screens/SettingsScreen.tsx:106-115 | 14 digits are written 2.3.3/4-2 |
| SettingsScreen.FormatCompanyDocumentDigits | src/screens/SettingsScreen.tsx:92-129 | the formatted document's digits are the normalised digits; at most 18 characters; '' iff there are no digits (also line 429) |
| SettingsScreen.ResolveLogoSource | src/screens/SettingsScreen.tsx:82-90 | None iff blank; otherwise a uri equal to the trimmed text, never empty |
| SettingsScreen.ResolveLogoTrimmed | src/screens/SettingsScreen.tsx:82-90 | resolving a resolved uri gives it again |
| SettingsScreen.SettingsToSave | src/screens/SettingsScreen.tsx:258-281 | something is saved iff all three factors read as positive, and then those are the factors saved |
| SettingsScreen.SavedDocument | src/screens/SettingsScreen.tsx:272-278 | the saved document holds the form's digits, at most 14, in at most 18 characters |
| EquipmentForm.ValidateEquipment | src/screens/EquipmentsScreen.tsx:142-183 | accepted iff the name is not blank, the daily rate > 0, the value ≥ 0 and the stock an integer ≥ 0; the name alert iff it is blank; the payload holds the values read |
| EquipmentForm.ValidateEquipmentErrors | src/screens/EquipmentsScreen.tsx:143-165 | each alert is raised iff the checks before it pass and its own fails |
| EquipmentForm.BlankFields | src/screens/EquipmentsScreen.tsx:148-160 | a blank value reads as 0 and is accepted; a blank daily rate is refused |
| EquipmentForm.CalculatedRateMeaning | src/screens/EquipmentsScreen.tsx:132-140 | ≥ 0; > 0 iff the daily rate is; for a valid form, the mode's rate of the saved daily rate |
| EquipmentForm.EditFormRoundTrip | src/screens/EquipmentsScreen.tsx:142-183 | saving the edit form of a valid equipment untouched gives back its name, mode, rate, value and stock (also lines 112-124) |
| EquipmentForm.SaveTargetOf | src/screens/EquipmentsScreen.tsx:180-184 | an update of the edited id iff one is held and it is not 0; otherwise a create |
| EquipmentForm.EquipmentScreen.constructor | src/screens/EquipmentsScreen.tsx:35-43 | hidden, empty form, nothing edited |
| EquipmentForm.EquipmentScreen.OpenCreateForm | src/screens/EquipmentsScreen.tsx:106-110 | the empty form, shown, no id held |
| EquipmentForm.EquipmentScreen.OpenEditForm | src/screens/EquipmentsScreen.tsx:112-124 | the equipment's fields, shown, with its id |
| EquipmentForm.EquipmentScreen.CloseForm | src/screens/EquipmentsScreen.tsx:126-130 | the empty form, hidden, no id held |
| EquipmentForm.EquipmentScreen.Save | src/screens/EquipmentsScreen.tsx:142-187 | a failed check leaves the screen as it is; otherwise the payload and its target, and the form closed |
| PdfTemplate.ReplaceAllByAppend | src/utils/pdfTemplate.ts:40-47 | a global replace distributes over concatenation |
| PdfTemplate.ReplaceAllByAbsent | src/utils/pdfTemplate.ts:40-47 | replacing a character that does not occur changes nothing |
| PdfTemplate.EscapeChar | src/utils/pdfTemplate.ts:40-47 | one character's escape has no markup character, and starts with '&' iff the character is special |
| PdfTemplate.EscapeHtmlIsEach | src/utils/pdfTemplate.ts:40-47 | the chain of five replaces escapes each character on its own |
| PdfTemplate.EscapeHtmlNoMarkup | src/utils/pdfTemplate.ts:40-47 | the output has no '<', '>', '"' or '\'' |
| PdfTemplate.EscapeHtmlPlain | src/utils/pdfTemplate.ts:40-47 | text with none of the five special characters is unchanged |
| PdfTemplate.UnescapeEscapeHtml | src/utils/pdfTemplate.ts:40-47 | every '&' of the output begins one of the five entities, and decoding them restores the input |
| PdfTemplate.ReplaceUnsafe | src/utils/pdfTemplate.ts:53 | only [A-Za-z0-9_-] is left; safe characters stay in place |
| PdfTemplate.CollapseUnderscores | src/utils/pdfTemplate.ts:54 | no "__" is left; the first character is kept |
| PdfTemplate.DropLeadingUnderscores | src/utils/pdfTemplate.ts:55 | a suffix with no leading '_', only '_' dropped |
| PdfTemplate.DropTrailingUnderscores | src/utils/pdfTemplate.ts:55 | a prefix with no trailing '_', only '_' dropped |
| PdfTemplate.SanitizeFileNamePart | src/utils/pdfTemplate.ts:49-58 | non-empty, only [A-Za-z0-9_-], no "__", no '_' at either end |
| PdfTemplate.SanitizeKeepsClean | src/utils/pdfTemplate.ts:49-58 | a clean token is its own sanitised form |
| PdfTemplate.SanitizeIdempotent | src/utils/pdfTemplate.ts:49-58 | sanitising twice is sanitising once |
| PdfTemplate.DocumentType | src/utils/pdfTemplate.ts:60-62 | 'ORCAMENTO' iff a quote, otherwise 'LOCACAO' |
| PdfTemplate.QuoteAlert | src/utils/pdfTemplate.ts:64-74 | '' iff not a quote; otherwise the alert block |
| PdfTemplate.DeliveryLine | src/utils/pdfTemplate.ts:100-102 | 'Entrega' iff a delivery, otherwise 'Retirada' |
| PdfTemplate.FilePrefix | src/utils/pdfTemplate.ts:108 | 'orcamento' iff a quote, otherwise 'locacao' |
| PdfTemplate.DateToken | src/utils/pdfTemplate.ts:109 | today's DD/MM/YYYY becomes DD-MM-YYYY, safe in a file name |
| PdfTemplate.FileNameSafe | src/utils/pdfTemplate.ts:104-113 | the file name has only safe characters, starts with prefix_token_ and ends with the date as DD-MM-YYYY |
| PdfTemplate.TextCellMeaning | src/utils/pdfTemplate.ts:124-133 | a shown, non-blank field reads back as the trimmed value; otherwise '-' |
| PdfTemplate.DocumentFields | src/utils/pdfTemplate.ts:124-133 | the validity shows only for a quote and the address only for a delivery; otherwise '-' |
| PdfTemplate.HeaderFields | src/utils/pdfTemplate.ts:279-298 | a blank company name or document shows '-', otherwise its trimmed value, read back exactly; an empty client document or phone shows '-', otherwise the untrimmed value, read back exactly |
| PdfTemplate.LogoBlockMeaning | src/utils/pdfTemplate.ts:116-122 | no block iff the URI is blank; otherwise the src attribute holds no '"' and reads back as the trimmed URI |
| AppStore.Store.constructor | src/store/useAppStore.ts:16-18 | not ready, version 0, no draft |
| AppStore.Store.SetDbReady | src/store/useAppStore.ts:19 | only the flag changes |
| AppStore.Store.BumpDataVersion | src/store/useAppStore.ts:20 | the version goes up by exactly 1 and nothing else changes |
| AppStore.Store.SetRentalFormDraft | src/store/useAppStore.ts:21 | the draft is stored and nothing else changes |
| AppStore.Store.ClearRentalFormDraft | src/store/useAppStore.ts:22 | the draft is dropped and nothing else changes |

## Left out

- Database I/O, async/await and the SQLite driver are out. The tables are sequences in memory. A rejected statement is the `failAt` argument. The foreign keys of `src/database/schema.ts` are enforced by the store's own checks.
- A failed read is not modelled: the SELECTs of getById, list and count, and getSettings' query. A failed expiry UPDATE inside getById or list is not modelled either. Those writes are taken to succeed.
- BEGIN, COMMIT and ROLLBACK failing, and create's "no insertId" error, are not modelled. AUTOINCREMENT never returns 0, so that error cannot happen.
- `Settings.GetSettings` and `Settings.FromStored` (and `Settings.GetSettingsOfEmpty` about them) model the corrected end-reminder fallback, 1h. The code as written falls back to 1d; that reading is `Settings.GetSettingsAsWritten` (see Findings).
- Format.CompareBrDateTime: ECMAScript's TimeClip is not modelled. A date more than 8.64e15 ms from the epoch (a year beyond about 275760) makes `getTime()` NaN, and the code then returns 1. `Format.InstantOf` keeps such an instant finite, so the model may return -1 or 0 there. Valid DD/MM/YYYY dates lie well inside the range, so CompareValid is unaffected.
- JsNumber.NumberToStringChars: JavaScript's `String` writes numbers below 1e-6 or from 1e21 on in exponent form, such as "1e-7" or "1e+21". The model writes every number in positional notation, and so do `JsNumber.NumberToString` and its round-trip lemmas.
- `RentalRows.SortNewestFirst`: SQLite leaves the order of rentals with the same `created_at` unspecified; the model keeps them in id order.
- `RentalStore.RentalStore.GetById`: the `updatedAt` reported is the one read before the expiry write, as in the code.
- Clients and equipment are fixed during the rental operations, and only their names are read. The equipment and client services are not part of this model.
- The clock is an argument. `todayBrDate` and `nowHHmm` are `DateFormat.FormatBrDate` and `DateFormat.FormatHHmm` applied to the date and time read. Time zones and daylight-saving shifts in `compareBrDateTime` are not modelled: local time is taken as minutes since the epoch.
- Floating point is out. Amounts and factors are exact reals, so IEEE rounding, `-0`, `Infinity` and `NaN` arithmetic are not modelled. `parseFloat` accepts an optional sign, digits and an optional fraction, but no exponent and no `Infinity`. `String(number)` writes at most 17 fraction digits.
- `toCurrency` (Intl number formatting) is not part of this model. Neither is `buildItemsRows`, which uses it, nor the HTML and CSS around the fields of `buildRentalPdfHtml`.
- PdfTemplate.SanitizeFileNamePart: Unicode NFD normalisation is not modelled. The function takes the already decomposed text. From there it removes the combining marks U+0300 to U+036F and applies the other steps.
- Text.AsciiLower: `toLowerCase` is modelled on ASCII letters only.
- The rental form's UI is out. This covers alerts, modals, native pickers, navigation, `loadData`, `mergeBrDateAndTime`, `buildCurrentDraft`, the draft persistence effect, the client list filter and the selection summary. These only display or move values.
- EquipmentForm.EquipmentScreen.Save: the equipment service call is not modelled. Neither are bumpDataVersion and the list reload. The form is closed as after a successful call; a failed call, which leaves the form open, is not modelled.
- The equipment screen's delete and its list loading are not modelled: they call the equipment service and nothing else.
- The AppStore, EquipmentScreen, FormState and SettingsTable methods state their new state with `old`. Their contracts are read as they are, not counted.

## Findings

| source | as written | input that shows it | evidently intended | confidence | as-written member | corrected member |
|---|---|---|---|---|---|---|
| src/screens/RentalFormScreen.tsx:127-133 | `formatBrDate` writes the year with `String(year)`, unpadded, so a valid date whose year is below 1000 comes back with fewer than four year digits, which `isValidBrDate` then rejects | "01/01/0100" is valid, and formats back as "01/01/100" | the year padded to four digits, so formatBrDate(parseBrDate(s)) == s for every valid s | not executed | DateFormat.FormatParseShortYear (with DateFormat.ShortYearExample) | DateFormat.FormatParsePadded |
| src/database/services/settingsService.ts:122 | `toReminderOption` falls back to '1d' for the end reminder too, while the default settings say '1h' | a settings table with no `rental_end_reminder` row (or the value "2h") reads as 1d | the field's own default, 1h, as for an empty table | not executed | Settings.GetSettingsAsWritten (with Settings.GetSettingsAsWrittenOfEmpty, Settings.EndReminderFallbackAsWritten and Settings.SaveThenGetAsWritten) | Settings.GetSettings (with Settings.GetSettingsOfEmpty) |
