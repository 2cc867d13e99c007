# Gita Life NYC website: attendee sheet logic, verified in Dafny

This project models the pure logic inside the site's attendee-tracking routes and pages, and proves properties of it. All state lives in the "MYF attendees" Google sheet. The model holds that sheet as `values.get` returns it: a ragged `seq<seq<string>>` whose row 0 is the header row. A cell past the end of a row is `None`, which is JavaScript `undefined`.

The modelled logic:

- **Column letters.** `getColumnLetter` turns a 0-based index into a bijective base-26 label. The two mark routes carry identical copies, so one definition models both.
- **Header lookup, row search and the write.**
  - Headers are found with an exact-match `findIndex`.
  - `mark-registered` searches rows by phone suffix from row 0, with pieces untrimmed.
  - `mark-present` searches rows by exact name from row 0.
  - `get-name-from-phone` searches data rows by trimmed phone suffix.
  - A successful mark writes one cell. The route sends the range text `MYF attendees!<letters><row+1>`.
- **Projections.** The attendance list, the name list and the follow-up-owner list.
- **Registration form.** `validateForm` and the `handleChange` field updates, including phone sanitisation and the "same as WhatsApp" mirroring.
- **UI logic.** The header's `isActive` rule and hrefs, the gallery pagination, and the name autocomplete filter.

Module layout: one module per source file (`MarkRegistered`, `MarkPresent`, `NameFromPhone`, `AttendanceList`, `FollowupOwnerList`, `NameList`, `RegistrationForm`, `NavHeader`, `Gallery`, `StatusUpdate`). These rest on shared modules:

- `Wrappers`: `Option` and `Result`.
- `JsText`: the JavaScript string operations (`trim`, `slice`, `includes`, `split(/[,/]/)`, `toLowerCase`, `replace(/\D/g, '')`).
- `Seqs`: `findIndex`, and `map`/`filter` as a selection with an index witness.
- `ColumnLetters`: the column labels.
- `Sheet`: cells, header lookup, the functional cell update, and how the sheet reads an A1 range back.

Where a route can throw, it returns a `Result`. Every failure leaves the sheet unchanged (`Sheet.SheetAfter`).

## Model

| member | source | states |
|---|---|---|
| ColumnLetters.ColumnLetterLoop | app/api/mark-registered/route.ts:94-101 | the source loop (prepend `65 + i % 26`, continue with `floor(i/26) - 1`) computes the bijective base-26 label `ColumnLetter`; the identical copy is app/api/mark-present/route.ts:79-86 |
| ColumnLetters.ColumnLetter | app/api/mark-registered/route.ts:94-101 | `getColumnLetter`: for every column index >= 0 the label is a non-empty string of letters 'A'..'Z' (the same helper is app/api/mark-present/route.ts:79-86) |
| ColumnLetters.DecodeEncode | app/api/mark-registered/route.ts:94-101 | reading the label as a bijective base-26 numeral and subtracting 1 gives back the index |
| ColumnLetters.EncodeDecode | app/api/mark-present/route.ts:79-86 | every non-empty upper-case label is the label of the index it decodes to, so labels and indices are in bijection |
| ColumnLetters.ColumnLetterInjective | app/api/mark-registered/route.ts:94-101 | distinct non-negative indices get distinct labels |
| ColumnLetters.ColumnLetterExamples | app/api/mark-registered/route.ts:94-101 | 0 -> "A", 25 -> "Z", 26 -> "AA", 701 -> "ZZ", 702 -> "AAA" |
| JsText.Trim | app/api/get-name-from-phone/route.ts:53 | `trim()` yields an infix of the input with only whitespace around it, and it neither starts nor ends with whitespace |
| JsText.SliceLast | app/api/get-attendance-list/route.ts:57 | `slice(-n)` keeps the last n characters, or the whole string when it is shorter |
| JsText.IncludesIff | app/api/mark-registered/route.ts:56 | `includes` holds exactly when the needle occurs at some position |
| JsText.IncludesTooLong | app/api/mark-registered/route.ts:56 | a needle longer than the haystack is never included |
| JsText.Split | app/api/mark-registered/route.ts:54 | `split(/[,/]/)` gives at least one piece, and no piece contains `,` or `/` |
| JsText.SplitJoin | app/api/mark-registered/route.ts:54 | there is one more piece than separators, and re-joining the pieces with the original separators gives the cell back |
| JsText.ToLowerIdempotent | app/statusupdate/page.tsx:83 | after `toLowerCase` no character is in 'A'..'Z', so lower-casing twice equals lower-casing once |
| JsText.DigitsOfChar | app/components/RegistrationForm.tsx:238 | `replace(/\D/g, '')` keeps a single character exactly when it is a digit |
| JsText.DigitsOfAppend | app/components/RegistrationForm.tsx:238 | digit removal distributes over concatenation, so the kept digits are those of the input, in input order |
| JsText.DigitsOfFormatted | app/components/RegistrationForm.tsx:238 | a number typed as `(ddd) ddd-dddd` keeps exactly its ten digits, in order |
| JsText.NoDigits | app/components/RegistrationForm.tsx:238 | a string without digits is removed entirely |
| JsText.DigitsOfDigits | app/components/RegistrationForm.tsx:238 | removing non-digits from a digit string changes nothing |
| Seqs.FirstFrom | app/api/mark-present/route.ts:53 | `findIndex`: the first position from `start` that satisfies the predicate, or `None` when no position does |
| Seqs.FilterMapSelects | app/api/get-names/route.ts:50 | `map` then `filter`: output k is the mapped element at kept position idx[k], positions increase, and a position is kept exactly when the map is defined there |
| Seqs.FilterMapNone | app/api/get-followupowner-list/route.ts:46-51 | a filter that rejects every row yields an empty list |
| Seqs.FilterMapAll | app/statusupdate/page.tsx:83 | a filter that keeps every element yields the list itself |
| Sheet.FindHeader | app/api/mark-registered/route.ts:45-46 | the first header equal to the name; absent exactly when no header equals it |
| Sheet.SetCell | app/api/mark-registered/route.ts:77-84 | after the write the target cell holds the value; every other row is unchanged; every other cell is unchanged, except that a short target row is padded with empty cells before the target column |
| Sheet.Decimal | app/api/mark-registered/route.ts:79 | the `${rowNumber}` text is a non-empty string of digits with no leading zero |
| Sheet.DecimalRoundTrip | app/api/mark-registered/route.ts:75-79 | the decimal row-number text reads back as the row number |
| Sheet.AddressRoundTrip | app/api/mark-registered/route.ts:74-79 | the range `MYF attendees!<letter><rowIndex+1>` addresses exactly cell (rowIndex, statusIndex): the label decodes to the column, and the 1-based row number to the matched row |
| Sheet.SheetAfter | app/api/mark-present/route.ts:58-69 | on failure the sheet is unchanged; on success it is the sheet with only the located cell set |
| PhoneMatch.ContactMatchesIff | app/api/mark-registered/route.ts:53-57 | a contact cell matches exactly when some `,`/`/` piece has a last-5-character window holding the query's last 4 characters (trimmed or not, per call site) |
| PhoneMatch.AnyPieceMatchesIff | app/api/get-name-from-phone/route.ts:55-57 | `some` over the pieces holds exactly when one piece matches |
| PhoneMatch.EmptyQueryMatches | app/api/mark-registered/route.ts:56 | an empty query matches every contact cell |
| PhoneMatch.MatchExamples | app/api/get-name-from-phone/route.ts:53-57 | the cell "9876543210, 2345678901" matches "2345678901" and does not match "0000000000" |
| PhoneMatch.SplitAfter | app/api/mark-registered/route.ts:54 | a separator after a separator-free prefix splits off exactly that prefix |
| PhoneMatch.SplitNone | app/api/mark-registered/route.ts:54 | a cell without separators is a single piece |
| MarkRegistered.Locate | app/api/mark-registered/route.ts:53-59 | the found row is the first one from `start` whose contact matches, and every earlier row has a defined contact cell; an undefined contact cell at or before the first match fails as `CellMissing`; `NoMatch` exactly when every row has a defined, non-matching contact |
| MarkRegistered.MarkRegistered | app/api/mark-registered/route.ts:41-75 | fails with `ColumnNotFound` exactly when "Contact" or "May MYF(2025)" is not a header; otherwise an absent contact fails, a success sets "Registered" in the status column at the first row from row 0 (the header row) whose untrimmed pieces match with every earlier contact cell defined, an undefined contact cell reached first fails, and `NoMatch` holds exactly when every row has a defined, non-matching contact cell |
| MarkRegistered.MarkRegisteredFrom | app/api/mark-registered/route.ts:45-75 | the same outcome as the route for a search that starts at any given row: header check first, then the first matching row from that start is written, or `CellMissing`, or `NoMatch` exactly when no row from the start matches |
| MarkRegistered.MarkRegisteredEffect | app/api/mark-registered/route.ts:69-84 | on success the sheet keeps its row count, the located status cell becomes "Registered", and every other cell is unchanged (a short row is padded with empty cells); on failure nothing is written |
| MarkRegistered.RegisteredStatus | app/api/mark-registered/route.ts:86-89 | the route answers 200 exactly when both headers exist, a contact was sent and the search from row 0 stops at a matching row; every failure answers 500 |
| MarkRegistered.MissingContactCellFails | app/api/mark-registered/route.ts:53-59 | an undefined contact cell in a row before any match makes the call fail |
| MarkRegistered.EmptyContactOverwritesHeader | app/api/mark-registered/route.ts:53-59 | as written, the contact "" matches the header row, and "Registered" replaces the "May MYF(2025)" header cell |
| MarkRegistered.MarkRegisteredDataRows | app/api/mark-registered/route.ts:53 | the corrected search over data rows only: it writes the first matching data row, so always a row >= 1, with the same failure cases |
| MarkRegistered.DataRowsKeepHeader | app/api/mark-registered/route.ts:53-84 | with the corrected search the header row is never changed |
| MarkPresent.MarkPresentFrom | app/api/mark-present/route.ts:41-60 | fails with `ColumnNotFound` exactly when "Name" or "Feb MYF" is missing; otherwise it finds the first row whose Name cell equals the name (`undefined === undefined` included), or fails with `NoMatch`; the update sets "Present" in the "Feb MYF" column |
| MarkPresent.MarkPresent | app/api/mark-present/route.ts:53-56 | with both headers present, the call fails with `NoMatch` exactly when no row, header row included, has that name; a success sets "Present" |
| MarkPresent.PresentStatus | app/api/mark-present/route.ts:71-74 | the route answers 200 exactly when both headers exist and some row, the header row included, has that name; every failure answers 500 |
| MarkPresent.FirstDuplicateOnly | app/api/mark-present/route.ts:53 | when two rows carry the name, the earlier one is marked and the later duplicate is untouched |
| MarkPresent.MarkPresentEffect | app/api/mark-present/route.ts:58-69 | on success the range text applied to the sheet keeps the row count, sets the located cell to "Present" and leaves every other cell unchanged (a short row is padded with empty cells); a failure writes nothing |
| MarkPresent.LocatorExample | app/api/mark-present/route.ts:45-56 | with rows Alice, Bob under the header, "Bob" is found at value row 2 (data row 1), and "Carol" is not found |
| MarkPresent.NameHeaderOverwritten | app/api/mark-present/route.ts:53 | as written, the name "Name" matches the header row, and "Present" replaces the "Feb MYF" header cell |
| MarkPresent.MarkPresentDataRows | app/api/mark-present/route.ts:53-69 | the corrected search over data rows only: with both headers present it writes "Present" in the "Feb MYF" column at the first data row (>= 1) whose Name cell equals the name, fails with `NoMatch` exactly when no data row has it, and leaves the header row as it was |
| NameFromPhone.NameFromPhone | app/api/get-name-from-phone/route.ts:9-68 | a missing or empty phone gives 400 before any lookup; a missing Name or Contact header gives the failure; otherwise the answer is the Name cell of the first data row (header excluded) with a non-empty contact cell that has a matching trimmed piece, or 404 when no data row matches |
| NameFromPhone.LookupStatus | app/api/get-name-from-phone/route.ts:9-65 | the route answers 404 exactly when a phone was sent, both headers exist and no data row matches, and 200 exactly when some data row matches |
| NameFromPhone.DataRowFound | app/api/get-name-from-phone/route.ts:48-58 | whenever some data row matches, the lookup finds a row, and the answer comes from the first matching data row at or before it, never from the header row |
| NameFromPhone.EmptyContactNeverCandidate | app/api/get-name-from-phone/route.ts:49-50 | a row whose contact cell is empty or missing never matches |
| AttendanceList.ContactNumbers | app/api/get-attendance-list/route.ts:53-59 | a missing or empty contact cell gives no numbers; every number has 1 to 4 characters; there are no more numbers than pieces |
| AttendanceList.ContactNumbersAreSuffixes | app/api/get-attendance-list/route.ts:53-58 | each number is the last (up to) 4 characters of a trimmed piece, in piece order, and a piece is dropped exactly when it is blank |
| AttendanceList.LastFourDefined | app/api/get-attendance-list/route.ts:56-58 | a piece gives a number exactly when its trimmed text is non-empty |
| AttendanceList.GetAttendanceList | app/api/get-attendance-list/route.ts:33-66 | fails exactly when "Name" or "Contact" is missing; has at most rows-1 entries; every entry's name is non-empty and its numbers have 1 to 4 characters |
| AttendanceList.AttendanceListSelects | app/api/get-attendance-list/route.ts:44-66 | there is one entry per data row with a non-empty name, in row order, holding that row's name and contact numbers |
| FollowupOwnerList.RecordOf | app/api/get-followupowner-list/route.ts:52-57 | the record's keys are the headers; header i maps to row[i] (`None` past the row's end) whenever no later header repeats it, so a repeated header keeps its last column |
| FollowupOwnerList.GetFollowupOwnerList | app/api/get-followupowner-list/route.ts:35-58 | fails exactly when "Followup owner" is missing; has at most rows-1 records, each keyed by the full header set |
| FollowupOwnerList.FollowupOwnerSelects | app/api/get-followupowner-list/route.ts:46-58 | the output is exactly the data rows whose owner cell is non-empty and equal to the requested owner, in order, each as its header-keyed record |
| FollowupOwnerList.EmptyOwnerYieldsNothing | app/api/get-followupowner-list/route.ts:50 | an empty or absent requested owner yields no entries |
| NameList.GetNames | app/api/get-names/route.ts:42-50 | fails exactly when "Name" is missing; every name is non-empty; there are at most rows-1 names |
| NameList.GetNamesSelects | app/api/get-names/route.ts:50 | the names are exactly the non-empty Name cells of the data rows, header excluded, in row order |
| RegistrationForm.ValidateForm | app/components/RegistrationForm.tsx:182-219 | the name errs iff its trimmed text is not 2-50 of letters, whitespace and `'.,-`; gender errs iff empty; WhatsApp errs iff not exactly 10 digits; contact is checked only when the box is unticked ("required" iff empty, else 10 digits); school errs iff its trimmed text is not 2-100 of letters, digits, whitespace and `'.,-` ("required" iff empty); valid iff no error |
| RegistrationForm.Sanitize | app/components/RegistrationForm.tsx:238 | the stored phone value is all digits, at most 10 long, a prefix of the input's digits, and exactly the first 10 digits when there are that many |
| RegistrationForm.SanitizeIdempotent | app/components/RegistrationForm.tsx:238 | sanitising twice equals sanitising once |
| RegistrationForm.SanitizedPhonePasses | app/components/RegistrationForm.tsx:196-198 | any input with at least ten digits is stored as a value that passes the 10-digit check |
| RegistrationForm.ClearError | app/components/RegistrationForm.tsx:225 | after an edit the edited field shows no error, and every other field keeps the error it had |
| RegistrationForm.HandleChange | app/components/RegistrationForm.tsx:221-258 | a toggle keeps the errors and changes only the box and the contact fields; an edit clears that field's error and keeps the box |
| RegistrationForm.KeyMentionsWhatsapp | app/components/RegistrationForm.tsx:250 | of the field names, exactly `whatsappExtension` and `whatsappNumber` contain "whatsapp" |
| RegistrationForm.InitialFormMirrored | app/components/RegistrationForm.tsx:155-164 | the initial form (box unticked) satisfies the mirroring invariant that toggles and edits preserve, and it fails validation with "Contact number is required" among its errors |
| RegistrationForm.ToggleCopies | app/components/RegistrationForm.tsx:227-235 | ticking the box copies the WhatsApp number and extension into the contact fields; unticking changes only the box |
| RegistrationForm.EditsKeepMirror | app/components/RegistrationForm.tsx:236-257 | while the box is ticked, later WhatsApp number and extension edits are mirrored into the contact fields |
| RegistrationForm.EditEffect | app/components/RegistrationForm.tsx:221-258 | an edit changes exactly: the WhatsApp number to the sanitised value, copied into the contact number when the box is ticked; the contact number to the sanitised value; the WhatsApp extension to the value, copied into the contact extension when ticked; any other field to the value as typed; the edited field's error is cleared and nothing else changes |
| RegistrationForm.ValidFormIsWellFormed | app/components/RegistrationForm.tsx:186-215 | a valid form has name and school within their length bounds, a gender, and phone numbers that sanitising leaves unchanged |
| RegistrationForm.MirroredHasNoContactError | app/components/RegistrationForm.tsx:201-207 | a ticked box never produces a contact-number error |
| RegistrationForm.MissingFirstChar | app/components/RegistrationForm.tsx:250 | a string lacking the needle's first character does not include the needle |
| NavHeader.OwnPageActive | app/components/Header.tsx:9-27 | on each item's own href that item's link is highlighted |
| NavHeader.ActiveBelow | app/components/Header.tsx:9-13 | a page below Events, Contact or Donate keeps that item highlighted, while Home is highlighted only on "/" itself |
| NavHeader.Hrefs | app/components/Header.tsx:22-27 | the hrefs are "/", "/events", "/contact" and "/donate" |
| NavHeader.RawPrefix | app/components/Header.tsx:11 | "/eventsarchive" highlights Events: the match is a string prefix, not a path segment |
| NavHeader.AtMostOneActive | app/components/Header.tsx:9-27 | for any pathname at most one navigation link is highlighted |
| Gallery.TotalPages | app/page.tsx:37 | `ceil(n / 8)`: the smallest page count whose pages hold n images |
| Gallery.PageBounds | app/page.tsx:38-40 | page p shows images [(p-1)*8, min(p*8, n)), so at most 8 |
| Gallery.PagesPartition | app/page.tsx:37-40 | pages 1..totalPages, laid end to end, are the gallery: no overlap and no gap |
| Gallery.TwentyThreeImages | app/page.tsx:11-40 | the 23-image gallery has 3 pages of 8, 8 and 7 images |
| Gallery.AltIsGlobalPosition | app/page.tsx:143 | the alt number `indexOfFirstImage + index + 1` is the image's 1-based position in the gallery |
| Gallery.PageButtons | app/page.tsx:152-155 | button i opens page i+1, so the buttons cover exactly pages 1..totalPages, in increasing order |
| Gallery.ButtonsShowImages | app/page.tsx:152-155 | every button opens a page with at least one image |
| StatusUpdate.FilterEntries | app/statusupdate/page.tsx:83 | every suggestion is one of the entries, and its lower-cased name starts with the lower-cased input |
| StatusUpdate.HandleNameChange | app/statusupdate/page.tsx:80-84 | the typed text becomes the selected name; the suggestions are entries that match, and every matching entry is among them |
| StatusUpdate.FilterSelects | app/statusupdate/page.tsx:83 | the suggestions are exactly the matching entries, in their original order |
| StatusUpdate.EmptyInputSuggestsAll | app/statusupdate/page.tsx:83 | an empty input suggests every entry |
| StatusUpdate.CaseInsensitive | app/statusupdate/page.tsx:83 | "aL" suggests "Alice" |
| StatusUpdate.SelectedStillSuggested | app/statusupdate/page.tsx:80-84 | after a suggestion is chosen (app/statusupdate/page.tsx:232-235), typing nothing more, the chosen entry is among the suggestions its own name produces |

## Left out

- Google Sheets client calls, authentication and credential parsing (`GoogleAuth`, `values.get/update/append`, module-level environment checks). These are remote I/O. The sheet is a parameter, and `values.update` is the functional `Sheet.SetCell`.
- Assumption: `values.get` on the whole tab returns sheet row i+1 as value row i. This is the premise behind "1-based row number = index + 1".
- `Sheet.ApplyRangeWrite`: reads only `<A-Z letters><decimal row>` references on the attendee tab. Other reference forms that the sheet accepts are not modelled.
- `Sheet.SetCell`: models a write past a row's end as padding with empty cells. That is how the sheet reads back; it is not a promise from the source.
- JSON request parsing (`req.json()`, `searchParams.get`). A body field is `Some(text)` when it is a string and `None` when the key is absent, so values of other JSON types are not modelled. This diverges in two places:
  - MarkPresent.MarkPresentFrom: a `null` or numeric `name` never equals a cell in the source (app/api/mark-present/route.ts:53), so the route answers 500. The model has no such value. Treating it as `None` would instead match the first row whose Name cell is missing.
  - MarkRegistered.MarkRegistered: an array `contact` has a `slice`, and `includes` coerces the sliced array to text (app/api/mark-registered/route.ts:53-59), so the source can succeed. The model only accepts a string contact, and an absent one fails with `ParameterMissing`.
- Response bodies and log messages. Only the status code and the returned data are modelled; the error kinds in `Sheet.LookupError` stand in for the thrown messages.
- `JsText.ToLower`: lower-cases ASCII only. Full Unicode case mapping (which can change length) is not modelled.
- `JsText.Slice`: lengths and offsets count characters (code points), not UTF-16 code units. Names with astral characters are therefore not modelled exactly.
- `FollowupOwnerList.RecordOf`: the record keeps an undefined cell as `None`. `JSON.stringify` dropping such keys, and the special `__proto__` key, are not modelled.
- `NameFromPhone.NameFromPhone`: a matched row without a Name cell is `Found(None)`, which the route sends as `{}` with status 200. The JSON encoding itself is not modelled.
- app/api/get-names/route.ts module-level credential-file access (lines 7-12, 19): file I/O.
- app/api/submit-registration/route.ts: only appends a row and posts to the email route. Appending new attendees is not part of this model.
- app/api/send-email/route.ts: SMTP through a mail library.
- app/api/login/route.ts: a single comparison against environment values.
- React state, effects and timers (notification dismissal, the blur delay), `fetch` calls and the async submit flows. Form and autocomplete state are explicit values passed to and returned from the handlers.
- Presentational pages and components (events, monthly-youth-festival, contact, donate, attendance, registerbylink, EventInfoModal) and the `COUNTRY_CODES` table.
- tailwind.config.ts and next.config.ts: configuration only.
- Read-then-write races between concurrent requests. Each handler is sequential; concurrency is outside the model.

## Findings

| source | as written | input that shows it | evidently intended | confidence | as-written member | corrected member |
|---|---|---|---|---|---|---|
| app/api/mark-registered/route.ts:53-59 | `rows.findIndex` searches from row 0, the header row, whose contact cell is "Contact" | contact `""`: the last-5 window "ntact" of the header cell contains `""`, so row 0 is chosen and "Registered" overwrites the "May MYF(2025)" header, after which every later call fails the header check | search the data rows only, as get-name-from-phone does with `rows.slice(1)` | medium; not executed | MarkRegistered.EmptyContactOverwritesHeader | MarkRegistered.DataRowsKeepHeader |
| app/api/mark-present/route.ts:53 | `rows.findIndex` searches from row 0, the header row, whose Name cell is "Name" | name `"Name"`: row 0 is chosen and "Present" overwrites the "Feb MYF" header | search the data rows only | medium; not executed | MarkPresent.NameHeaderOverwritten | MarkPresent.MarkPresentDataRows |
