# URL shortener: request logic and bounded history, in Dafny

This project models the core of a browser-side URL shortener (`script.js`).

The first part is the **history store**. It is the page-wide array `urlHistoryData` of past conversions, newest first, with a capacity of 10. Three functions change it in place, and each writes the whole array back to the `urlHistory` storage key:
- `addToHistory` unshifts the new record and pops once when the length passes 10;
- `deleteFromHistory` is `splice(index, 1)`;
- `clearHistory` reports "already empty" on an empty history, and otherwise resets it after a confirmation.

The second part is the **shorten request** (`handleShorten`):
- both fields are trimmed;
- the URL is checked before the custom alias, and the alias is checked against `^[a-zA-Z0-9-_]+$` only when it is non-empty;
- the form body is built;
- the service's reply is classified: a truthy `error` wins, then a truthy `result_url` succeeds, and anything else fails;
- only a success touches the history and clears the input fields;
- the in-flight flag (`shortenBtn.disabled`) is cleared on every path out of the request.

Two small pieces are modelled as well: the theme flag (`toggleTheme`, stored as text and read back with `=== 'true'`) and `generateQRCodeUrl`.

Files and modules:
- `history.dfy` (`History`): records, the specification functions `Inserted` and `Spliced`, and the class `HistoryStore`. The class holds `items` (the array) and `stored` (the storage key, `None` while absent). Its invariant `Valid()` says that a reload gives back exactly `items`.
- `shorten.dfy` (`Shorten`): slug predicate, validation, request body, reply classification, and the class `ShortenForm` with the two input fields, the `busy` flag and the shared history. Three client methods (`ScenarioSuccess`, `ScenarioServiceError`, `ScenarioInvalidSlug`) state the end-to-end cases and prove them from the contracts alone.
- `jstext.dfy` (`JsText`): `String.prototype.trim` over ECMA-262 WhiteSpace and LineTerminator (sections 12.2 and 12.3).
- `form.dfy` (`FormEncoding`): the structural reading of an `application/x-www-form-urlencoded` string, after WHATWG URL Standard section 5.1: split on `&`, cut at the first `=`. This is the independent reference against which the request body and the QR-code query are checked.
- `appearance.dfy` (`Appearance`): the theme flag and the QR-code URL.
- `wrappers.dfy` (`Wrappers`): `Option` and `Result`.

External pieces are parameters:
- `isValidUrl` (a `new URL` parse, WHATWG URL Standard section 4) is `validUrl: string -> bool`;
- `encodeURIComponent` is `encode: string -> string`;
- the `fetch` plus `response.json()` round trip is `service: string -> Response`, from the body to the reply;
- the `confirm()` answer is a `bool`;
- the ISO timestamp is a `string`.

Some behaviour of the code differs from what a bounded cache might be expected to do. The model keeps the code's behaviour:
- Loading does not fall back to an empty history on corrupt data. `JSON.parse` throws on a malformed value. A missing key, or a stored value that parses to a falsy JSON value such as `null`, gives `[]`. The model's key holds only what the page writes: an array of records, or nothing.
- Deleting an out-of-range index is not an error. `splice` clamps the index: a negative index counts from the end, and an index past the end removes nothing. The array is still written back.
- An insertion pops at most one record. A loaded history longer than 10 stays that long (`InsertedWithinCapacity` needs `|h| <= Capacity`).
- The custom alias is sent without percent-encoding. `BodyReadsBack` and `ValidSlugIsFormSafe` show this is harmless for a validated alias.

## Model

| member | source | states |
|---|---|---|
| `JsText.TrimStartCuts` | script.js:60-61 | trimming the front keeps a suffix; everything cut is whitespace; the result does not start with whitespace |
| `JsText.TrimEndCuts` | script.js:60-61 | trimming the back keeps a prefix; everything cut is whitespace; the result does not end with whitespace |
| `JsText.TrimIsSlice` | script.js:60-61 | the trimmed field is one contiguous slice of the input, with only whitespace cut on either side |
| `JsText.TrimmedEnds` | script.js:60-61 | the trimmed field neither starts nor ends with whitespace |
| `JsText.TrimUntouched` | script.js:60-61 | a field with no whitespace at either end is used exactly as typed |
| `JsText.TrimIdempotent` | script.js:60-61 | trimming an already trimmed field changes nothing |
| `History.LoadHistory` | script.js:11 | a missing storage key loads as the empty history; a stored array loads unchanged, with no truncation |
| `History.Inserted` | script.js:166-175 | the new record is at index 0 and the earlier records follow in order; the length grows by one below capacity and stays the same at or above it (one record is dropped) |
| `History.InsertedWithinCapacity` | script.js:173-175 | from at most 10 records, the result has at most 10; from exactly 10, the oldest is dropped; below 10, nothing is dropped and no repeated URL is merged |
| `History.InsertAllNewestFirst` | script.js:166-175 | after any run of insertions into a history of at most 10, it holds the new records newest first, then the old ones, cut to 10 |
| `History.InsertAllKeepsLatest` | script.js:166-175 | after 10 or more insertions, only the 10 most recent records remain, newest first |
| `History.SpliceStart` | script.js:225 | `splice` resolves an index from 0 to the length to itself and an index past the length to the length; a negative index resolves to length + index, or to 0 when that is negative |
| `History.Spliced` | script.js:225 | when the resolved position is in range, exactly that record is removed: the length drops by one, records before it stay, records after it shift down by one, and the multiset loses just that record; otherwise nothing changes |
| `History.SplicedPastEnd` | script.js:224-225 | deleting at or past the end of the history leaves it unchanged (no error is raised) |
| `History.SplicedFromEnd` | script.js:224-225 | a negative index deletes exactly what its counterpart length + index deletes; in particular -1 drops the oldest record and keeps the rest in order |
| `History.HistoryStore.Load` | script.js:11 | page start reads the storage key once; afterwards a reload would give the in-memory history |
| `History.HistoryStore.AddToHistory` | script.js:166-179 | the new history is `Inserted(old history, record)`; the mirror is written with the new history; a history within capacity stays within it |
| `History.HistoryStore.DeleteFromHistory` | script.js:224-229 | the new history is `Spliced(old history, index)`; the mirror is written whether or not a record was removed |
| `History.HistoryStore.ClearHistory` | script.js:38-50 | on an empty history: reports already empty and writes nothing; if confirmed: the history and the mirror become empty; if declined: nothing changes |
| `Shorten.SlugPatternIff` | script.js:54 | the anchored pattern `^[a-zA-Z0-9-_]+$` accepts a string exactly when it is non-empty and every character is a letter, digit, `-` or `_` |
| `Shorten.ValidSlugIsFormSafe` | script.js:54 | a valid alias contains neither `&` nor `=`, so pasting it unencoded into the body cannot break the form |
| `Shorten.ValidateCustomSlug` | script.js:52-57 | `validateCustomSlug` returns true exactly when the trimmed alias field is a valid alias |
| `Shorten.SlugExamples` | script.js:54 | `"ab cd"` is rejected and `"ab-cd_12"` is accepted |
| `Shorten.Validate` | script.js:60-71 | an invalid trimmed URL is rejected as such, whatever the alias; the alias is rejected exactly when the URL is valid, the trimmed alias is non-empty and it is not a valid alias; otherwise the request carries the trimmed URL and the trimmed alias |
| `Shorten.SpacedSlugRejected` | script.js:63-71 | with the URL `https://example.com` accepted, the alias `"ab cd"` is rejected as an invalid alias |
| `Shorten.RequestBody` | script.js:84 | the body begins with `url=` followed by the encoded URL |
| `Shorten.BodyReadsBack` | script.js:84 | read as a form, the body gives back the field `url` with the encoded URL, then the field `custom` with the alias exactly when the alias is non-empty |
| `Shorten.ValidatedBodyReadsBack` | script.js:63-84 | for every request that passes validation, the body reads back as those fields, although the alias is not encoded |
| `Shorten.Notice` | script.js:103 | the `catch` block's fallback: a non-empty message is kept as it is, and an empty one becomes "Failed to shorten URL" |
| `Shorten.Classify` | script.js:89-103 | success happens exactly when the reply has no truthy `error` and has a truthy `result_url`, and it pairs the URL with that `result_url`; a truthy `error` fails with its own text even when `result_url` is present; a reply with neither fails with "Failed to get shortened URL"; what `fetch` or `response.json()` threw fails with its own message, or "Failed to shorten URL" when that message is empty; every failure has a non-empty message |
| `Shorten.ShortenForm.HandleShorten` | script.js:59-108 | a rejected request returns before the busy flag is touched; otherwise the service gets the body of the validated request and the outcome is its classification; only a success inserts `(url, result_url)` into the history and clears both fields; a failure leaves the history, the mirror and the fields unchanged; the busy flag is false after every path out of the request |
| `Appearance.FlagRoundTrip` | script.js:12-29 | the flag written as text reads back as the same flag; a missing key reads as light |
| `Appearance.ThemeState.Load` | script.js:12 | the page starts dark exactly when the stored text is `"true"` |
| `Appearance.ThemeState.ToggleTheme` | script.js:27-31 | the flag is negated and written; a reload shows the same theme |
| `Appearance.QrColours` | script.js:161-162 | foreground and background always differ; the dark theme draws in the light theme's background colour |
| `Appearance.QrQueryReadsBack` | script.js:159-164 | the QR-code URL is the image endpoint, then `?`, then a query that reads back as exactly four fields: size `200x200`, the encoded target, and the current theme's two colours |

## Left out

- DOM rendering and notifications (`updateTheme`, `showResult`, `updateUrlHistory`, `showQRCode`, `showNotification` with its timer, the border colour set by `validateCustomSlug`): presentation only. The notification texts appear in the model only as the failure message and the `ClearOutcome` values.
- Clipboard (`copyToClipboard`, the copy-QR handler): browser I/O.
- `fetch`, its headers and API key, and `response.json()`: network I/O. The service is a function from the body to a parsed `Response`. A thrown `fetch` or parse error is `Thrown(message)`. So is a reply that parses to `null`: reading its `error` field raises a TypeError, which the `catch` block reports.
- `isValidUrl` and `encodeURIComponent`: library code, passed in as parameters. Form-safety of the encoded URL (no `&` or `=`) is a precondition of the read-back lemmas.
- JSON serialisation of the history and `Date().toISOString()`: the storage key holds the record sequence itself, and the timestamp is an argument.
- Reply fields that are JSON values other than strings or `null` (numbers, booleans, arrays, objects in `error` or `result_url`): the service sends strings. A non-string value's truthiness and its `String()` conversion are not modelled.
- `Shorten.Classify`: does not model an exception thrown by `showResult` or `addToHistory` inside the `try` block (a failing storage write or DOM update), which the source would also report through the `catch` block.
- Concurrency and the `await` suspension: the request runs to completion in one step, so the set `busy` flag is never observable and the contract states only that it is false afterwards. The Enter key handler calls `handleShorten` even while the button is disabled, so two requests can be in flight at once, and the first to finish clears the flag. The model does not capture this interleaving.
- `History.HistoryStore`: every `setItem` write is assumed to succeed. In the source the write comes after the array has changed, so a throwing write (a full quota, disabled storage) leaves the array changed and the stored key stale. Inside `handleShorten` that throw would be reported as a failure although the record is already in the history; the model's failure path leaves the history unchanged.
- Strings are sequences of Unicode scalar values, not UTF-16 code units, so a lone surrogate cannot be written. The `URIError` that `encodeURIComponent` throws on one (in the request body, and in the QR-code URL built by `showResult`) is not modelled.
- `History.Spliced`: `splice` with a non-integer or non-numeric index is not modelled. Indexes come from the rendered list positions, which are integers.
- Percent-decoding of form values when the body is read back: the read-back lemmas compare the still-encoded values.
- `FormEncoding.ParseForm`: unlike the parser of WHATWG URL Standard section 5.1, it keeps empty `&`-parts (`""` reads as one empty field) and does not turn `+` into a space. The bodies and queries read back here have no empty parts and no `+` outside the encoded values.
