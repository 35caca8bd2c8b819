# CustomerMap in Dafny

A model of the logic inside `script.js`, the single browser script of CustomerMap. CustomerMap is a
personal address book: it stores customers with a name, a mobile number, an address, coordinates,
a map link and photos. It can fill in the coordinates and the address from a pasted Google Maps
link. It can also share a record as a WhatsApp message, an SMS text, an e-mail, clipboard text or a
vCard.

The model covers the parts of the script whose behaviour can be stated without the browser:

- **Location resolution** (modules `Decimals`, `Extraction`, `ShortLinks`, `Geocoder`, `Resolution`):
  - the nine coordinate patterns, each hand-coded as a leftmost, greedy matcher; the first pattern
    in list order that matches wins;
  - `parseFloat(x).toFixed(6)` on the captured numerals, taken on their exact decimal values;
  - the short-link test;
  - the two fallbacks, one for expanding a short link and one for reverse geocoding;
  - the orchestration that writes the coordinate and address fields, with the message shown.

  What each web service answered is an input value.
- **The customer book** (module `Customers`): class `CustomerManager` holds the script's global
  `customers`, `uploadedPhotos` and `currentSearchTerm`. Its methods are:
  - the add handler, with its validation and defaults;
  - edit and delete by id;
  - search and clearing the search;
  - the photo upload loop and photo removal.

  The clock, the form inputs, the confirmation dialog and the stored list are parameters. The photo
  acceptance rules are in module `Photos`.
- **Search highlighting** (module `Highlight`): `escapeRegex`, and `highlightText` as a
  case-insensitive, left-to-right wrapping of each occurrence.
- **Sharing** (module `Sharing`): the texts the share functions build, proved line by line.
- **Theme** (module `Theme`): the choice `toggleTheme` makes.

Modules `Wrappers`, `Strings` and `Seqs` hold the JavaScript primitives the script relies on:
- `trim` with ECMAScript's white-space set;
- `includes`, `startsWith` and `split` with a one-character separator;
- an ASCII `toLowerCase`;
- `Array.prototype.filter`.

All source references are to `script.js`.

## Model

| member | source | states |
|---|---|---|
| Strings.Trim | script.js:294-298 | The result is a slice of the input, and everything before and after the slice is white space. The result is empty exactly when the input is all white space. Otherwise it neither starts nor ends with white space. A text already without outer white space is unchanged. |
| Strings.Split | script.js:841 | There is at least one part, and no part contains the separator. |
| Strings.JoinSplit | script.js:841 | Joining the parts with the separator gives back the text. |
| Seqs.Filter | script.js:97-102 | Every kept element satisfies the predicate and comes from the input. Every input element that satisfies the predicate is kept. The result is no longer than the input. |
| Decimals.NumberAt | script.js:899 | A greedy `-?\d+\.\d+` match is a well-formed numeral. It ends at the end of the text or before a non-digit. |
| Decimals.NumberAtSpelled | script.js:899 | The text a match covers is the text of the numeral it captures. |
| Decimals.NumberAtReads | script.js:899 | Where the text of a well-formed numeral stands, followed by a non-digit or the end, the match there captures exactly that numeral and ends where its text ends. |
| Decimals.ParseText | script.js:899 | Parsing the text of a numeral gives that numeral back and consumes all of it. |
| Decimals.Fixed | script.js:913-914 | The numeral `toFixed(6)` prints has exactly six fraction digits and no superfluous leading zero. Its digits are the input rounded at the sixth place. It is negative exactly when the input is negative and not zero. |
| Decimals.ToFixed6 | script.js:913-914 | The printed text has the form `-?\d+\.\d{6}`. It starts with `-` exactly when the value is negative and not zero. |
| Decimals.FixedFixed | script.js:841-848 | Re-rounding an already rounded numeral gives it back, except that a negative zero loses its sign. |
| Decimals.NegativeZeroText | script.js:848 | A rounded numeral prints as `-0.000000` exactly when it is a negative zero, and without the sign it prints as `0.000000`. |
| Decimals.RenderReadsBack | script.js:841-848 | Parsing a printed numeral gives back the rounded numeral. Printing it again reproduces the text, except that `-0.000000` becomes `0.000000`. |
| Extraction.MatchAt | script.js:898-908 | Whatever a pattern captures at a start position is a pair of well-formed numerals. |
| Extraction.MatchAtSpelled | script.js:898-908 | What a pattern captures is spelled out in the text at or after the start of the match: the latitude's text, the pattern's separator, the longitude's text. |
| Extraction.MatchAtReads | script.js:899-907 | Where a pattern's opening literal stands and is followed by a pair's text, and then by a non-digit or the end, the pattern captures exactly that pair there. For the zoom pattern, this holds when the `,zoomz` tail follows. |
| Extraction.PairAtReads | script.js:899 | A literal followed by the text of a pair and then by a non-digit is matched, with exactly that pair captured and the match ending where the pair's text ends. |
| Extraction.LastPairFound | script.js:906 | The backtracking search finds a start in the range where `@lat,lng` matches, captures that match's pair, and no later start in the range matches. |
| Extraction.LastPairNone | script.js:906 | The backtracking search finds nothing exactly when `@lat,lng` matches at no start in the range. |
| Extraction.PlaceFound | script.js:906 | A `place/...@lat,lng` match captures an `@lat,lng` match that starts on the same line after `place/`, and no later start on that line matches. |
| Extraction.PlaceReads | script.js:906 | Conversely, where `place/` is followed on its line by `@` and a pair's text, with no later `@lat,lng` match on the line, the pattern captures that pair. |
| Extraction.ExtractFirstAt | script.js:895-920 | A URL whose first `@` is followed by the text of a pair, and then by a non-digit or the end, gives that pair printed with six decimals each. |
| Extraction.MatchSomewhere | script.js:911 | `url.match(p)` succeeds exactly when the pattern matches at some start position. |
| Extraction.MatchIsLeftmost | script.js:911 | The captures of a match are those of its leftmost start position. |
| Extraction.FirstMatch | script.js:910-917 | The result is `None` exactly when no pattern of the list matches. Otherwise it is the captures of the first pattern in list order that matches. |
| Extraction.Render | script.js:913-915 | The result has the form `L, G`, where each of `L` and `G` is `-?\d+\.\d{6}`. |
| Extraction.ExtractCoordsFromUrl | script.js:895-920 | The loop returns `null` exactly when none of the nine patterns matches. Otherwise it returns the rendering of the first matching pattern's captures, in the form `L, G`. |
| Extraction.Subsumed | script.js:899-907 | Patterns 6, 7 and 8 match only text that pattern 1 matches, and pattern 9 only text that pattern 3 matches. |
| Extraction.OnlyFirstFiveDecide | script.js:898-908 | Scanning all nine patterns gives the same result as scanning the first five. |
| ShortLinks.IsShortUrl | script.js:861-866 | True exactly when the URL contains `goo.gl`, `bit.ly` or `tinyurl.com` as a case-sensitive substring. |
| ShortLinks.MapsAppIsGooGl | script.js:862-863 | A URL containing `maps.app.goo.gl` contains `goo.gl`, so the second test adds nothing. |
| ShortLinks.ExpandShortUrl | script.js:869-892 | A non-empty primary text without `Error` gives that text trimmed. Otherwise non-empty proxy `contents` are used, whatever they are. In every other case, both calls throwing included, the result is the short URL. |
| ShortLinks.ExpansionSources | script.js:869-892 | The expansion is the short URL, the trimmed primary text or the proxy's `contents`: nothing else. |
| ShortLinks.ProxyUnusedAfterPrimary | script.js:875-877 | When the primary answer is usable, the proxy's answer does not matter. |
| Geocoder.Compose | script.js:949 | The composed locality is the city, then `, ` and the subdivision, then `, ` and the country, in that order, with the length of the three fields plus two separators. |
| Geocoder.ComposeFields | script.js:949 | For comma-free fields, splitting the composed locality at its commas gives back the city, the subdivision and the country, in that order. |
| Geocoder.GetAddressFromCoords | script.js:923-957 | A usable first answer gives its display name. Failing that, a usable second answer gives the composed locality. Otherwise the result is `null`. A non-null result is never empty. |
| Geocoder.SecondUnusedAfterFirst | script.js:930-935 | When the first provider answers usably, the second's answer does not matter. |
| Geocoder.FailuresAlike | script.js:924-938 | A thrown error, a response that is not ok, and an empty display name all lead to the same result. |
| Resolution.Refix | script.js:841-848 | A text starting with a numeral is re-printed in the form `-?\d+\.\d{6}`. |
| Resolution.ExpandIfShort | script.js:824-828 | A URL that is not short is used as it is. |
| Resolution.ResolveUrl | script.js:804-858 | An empty trimmed URL changes nothing. When no coordinates are found, the fields are unchanged. When coordinates are found, the coordinate field holds the extraction of the possibly expanded URL. On full success, the address field holds the geocoded address. |
| Resolution.Decide | script.js:831-853 | Without coordinates nothing changes. With coordinates the coordinate field is set. Full success happens exactly when the address is non-empty, and then the address field gets that address. The catch block is reached exactly when there is no address and the coordinate text has no comma; only the address field then keeps its value. |
| Resolution.OutcomeCases | script.js:809-855 | Which message is shown, as an if-and-only-if on the results of the two steps. The catch block is never reached. |
| Resolution.DecideExtracted | script.js:841-855 | Whatever the extraction finds, splitting it at `,` and re-parsing it never throws. |
| Resolution.ExpansionOnlyWhenShort | script.js:824-828 | For a URL that is not short, the expansion services' answers make no difference. |
| Resolution.SplitRendered | script.js:841 | A rendered pair splits into two parts, and each trimmed, re-printed part gives back its numeral up to the sign of zero. |
| Resolution.Placeholder | script.js:847-849 | Without an address, the address field reads `Location at L, G` for the extracted `L, G`, except that `-0.000000` prints as `0.000000`. |
| Photos.Check | script.js:717-725 | A file is accepted exactly when it is at most 5 MB and its type starts with `image/`. It is too large exactly when it exceeds 5 MB. |
| Photos.AcceptedUpTo | script.js:714-742 | The photos recorded for the first `n` files are at most `n`. Each comes from an accepted file, its id being the clock reading plus the file's index. The ids strictly increase. |
| Photos.AcceptedExactly | script.js:714-742 | A photo is recorded exactly when it comes from an accepted file of the batch. |
| Photos.BatchStaysWithinLimit | script.js:709-712 | A batch that passes the count test leaves at most five photos in the buffer. |
| Photos.WithoutPhoto | script.js:775 | The remaining photos are exactly those without the id. With no such photo, the buffer is unchanged. |
| Photos.WithoutPhotoAppend | script.js:775 | Each photo is kept or removed on its own, so removal from a concatenation is the concatenation of the removals: the remaining photos keep their order. |
| Photos.RemoveIdempotent | script.js:775 | Removing a photo twice is the same as removing it once. |
| Highlight.EscapeRegex | script.js:241-243 | The escaped term is a literal pattern: every special character of the escape class stands behind a backslash, and no other character is special. It is never shorter than the term, and equal in length exactly when no character is special. |
| Highlight.UnescapeEscape | script.js:236-242 | The literal string the escaped term stands for is the term itself. |
| Highlight.LiteralUnique | script.js:241-243 | Two literal patterns that stand for the same string are the same pattern. |
| Highlight.EscapeIsTheLiteral | script.js:236-242 | Any literal pattern that stands for the term is the escaped term, so the `gi` pattern matches exactly the term's text. |
| Highlight.Marked | script.js:236-237 | Wrapping occurrences never shortens the text. |
| Highlight.PlainScan | script.js:236-237 | The pieces the scan cuts the text into cover the text in order, in its original spelling. |
| Highlight.ScanPiece | script.js:236-237 | Each piece stands at its offset in the text. An occurrence piece is a case-insensitive occurrence of the term there, in the text's spelling. A kept character is the text's character there, and no occurrence starts at it. |
| Highlight.MarkedShowsScan | script.js:236-237 | The replacement prints the pieces of the scan: the kept characters as they are, each occurrence inside the highlight span. |
| Highlight.MarkedUnchanged | script.js:236-237 | The replacement leaves the text unchanged exactly when the term does not occur in it, ignoring case. |
| Highlight.HighlightText | script.js:233-238 | An empty term returns the text itself. Otherwise the result prints the pieces of a scan that covers the text. The result is never shorter than the text. |
| Highlight.HighlightChanges | script.js:233-238 | The text changes exactly when the term is non-empty and occurs in it, ignoring case. |
| Customers.CheckNewCustomerCases | script.js:300-315 | An add goes through exactly when the trimmed name, mobile and address are non-empty, the mobile is ten digits and no record has it. Each refusal names the first failing test. |
| Customers.NewCustomerDefaults | script.js:317-326 | The new record holds the trimmed inputs, and its coordinates are never empty: `Not provided` when none were typed, the trimmed text otherwise. With no map URL typed, it gets a Google Maps link on the coordinates as typed; the link is empty exactly when no map URL was typed and the coordinates were typed as `Not provided`. |
| Customers.AddKeepsDistinct | script.js:311-328 | An accepted add keeps the mobile numbers pairwise distinct. |
| Customers.FindById | script.js:343 | `None` exactly when no record has the id. Otherwise the result is the first record with the id. |
| Customers.WithoutId | script.js:357 | The records left are exactly those without the id. With no record of the id, the list is unchanged. The list shrinks exactly when some record has the id. |
| Customers.WithoutIdAppend | script.js:357 | Each record is kept or removed on its own, so removal from a concatenation is the concatenation of the removals: the records left keep their order. |
| Customers.RemovalKeepsDistinct | script.js:373 | Removing the records of an id keeps the mobile numbers distinct. |
| Customers.SearchResults | script.js:89-102 | An empty term shows everyone. Otherwise exactly the matching records are shown. The result is never longer than the list. |
| Customers.SearchResultsAppend | script.js:97-102 | Each record is matched on its own, so the results keep the order of the list. |
| Customers.Stats | script.js:246-266 | No line for an empty term. `No results` exactly when the count is zero, carrying the search term. `Showing all` exactly when the count equals the total, carrying the total. `Found` otherwise, with the count, the total and the term. |
| Customers.SearchStatsCases | script.js:97-108 | For a search: no results exactly when nobody matches; all shown exactly when a non-empty list matches entirely; otherwise a count strictly between none and all. |
| Customers.CustomerManager.constructor | script.js:37-56 | The stored list when there is one, otherwise the demo record; the buffer and the search term start empty. |
| Customers.CustomerManager.Submit | script.js:291-339 | The result is the validation verdict. A refused add changes nothing. An accepted add appends exactly the new record, with the photo buffer, and then empties the buffer. Mobile numbers stay distinct. |
| Customers.CustomerManager.Edit | script.js:342-368 | An unknown id changes nothing. Otherwise the form receives the first record with the id, the buffer its photos, and every record with the id leaves the list. Mobile numbers stay distinct. |
| Customers.CustomerManager.Delete | script.js:371-378 | Once confirmed, every record with the id leaves the list and the others keep their order. Otherwise nothing changes. |
| Customers.CustomerManager.Search | script.js:70-109 | Remembers the trimmed, lower-cased term, and gives the records shown and the stats line for it. |
| Customers.CustomerManager.ClearSearch | script.js:269-287 | Forgets the term and shows everyone. |
| Customers.CustomerManager.HandlePhotoUpload | script.js:705-743 | A batch that would take the buffer over five photos is refused and changes nothing. Otherwise the buffer gains exactly the photos of the accepted files, in file order, and holds at most five. |
| Customers.CustomerManager.RemovePhoto | script.js:774-778 | The buffer loses exactly the photos with the id. |
| Sharing.FlattenLines | script.js:599 | Every line break of the address becomes a space; nothing else changes. |
| Sharing.WhatsAppLines | script.js:506-514 | The WhatsApp message, line by line: the title, a blank line, mobile, address, coordinates, the map link only when there is a map URL, a blank line, the footer. |
| Sharing.SmsLines | script.js:521-529 | The SMS text, line by line: name, mobile, address, coordinates, the map line only when there is a map URL, a blank line, the footer. |
| Sharing.EmailSubject | script.js:537 | The subject is `Customer Details: ` followed by the customer's name as it is. |
| Sharing.EmailTextLines | script.js:538-552 | The e-mail body before `trim`, line by line, with its opening empty line and the white-space line the template leaves. |
| Sharing.EmailBodyLines | script.js:536-554 | The body sent: `trim` drops only the opening line break, so the lines are the header, a blank line, the four fields, the white-space line, the map link when there is one, a blank line, the footer. |
| Sharing.ClipboardLines | script.js:569-575 | The clipboard text, line by line: the four fields and the map line only when there is a map URL. |
| Sharing.VCardTextLines | script.js:594-608 | The vCard before `trim`, line by line. |
| Sharing.VCardLines | script.js:593-610 | The vCard saved, line by line, in the vCard 3.0 layout of RFC 2426: `BEGIN`, `VERSION`, `FN`, `TEL`, one `ADR` line even for a multi-line address, the `NOTE`, the `URL` only when there is a map URL, and `END`. |
| Sharing.MapsSearchQuery | script.js:559-565 | There is a search exactly when the coordinates are non-empty and not `Not provided`, and it searches for the coordinates. |
| Theme.Current | script.js:1185 | The theme is `light` exactly when the attribute is missing, empty or `light`; any other theme is the attribute itself. |
| Theme.Toggled | script.js:1186 | The new theme is `light` or `dark`, and it is `dark` exactly when the current theme is `light`. |
| Theme.Toggle | script.js:1184-1188 | From the attribute: the result is `light` or `dark`, and `dark` exactly when the attribute is missing, empty or `light`. |
| Theme.IconFor | script.js:1195-1199 | The sun icon exactly for the dark theme. |
| Theme.ToggleInvolution | script.js:1186 | On `light` and `dark`, toggling twice gives back the starting theme. |
| Theme.ToggleAlternates | script.js:1184-1188 | After the first toggle, the theme alternates between `light` and `dark`. |
| Theme.ToggleFlipsIcon | script.js:1184-1199 | From `light` or `dark`, a toggle switches the icon between sun and moon. |

## Left out

- Everything the script does to the page: rendering lists and cards, the share menu and the action sheet, modals, toasts, buttons, sections and headers.
- The network calls to unshorten.me, allorigins, Nominatim and BigDataCloud. Their answers are inputs (`PrimaryReply`, `ProxyReply`, `Reply`).
- Reading and printing JSON fields. A missing or falsy field is `""`, and a JSON body that is not an object, or is `null`, counts as a thrown error. Truthy values that are not strings are not modelled, and neither is the printing of a missing locality field as `undefined`.
- `localStorage` and JSON persistence: `saveCustomersToStorage`, and the reading and writing of the theme. The stored list is a constructor parameter.
- `Date.now()` and `new Date().toISOString()`: the customer id, the clock reading behind photo ids and every timestamp are parameters.
- `Date.now()` in the `onload` callbacks (script.js:730): one clock reading `now` stands for the reading each callback takes, so photo ids of one batch are `now` plus the file index. In the script the callbacks may read different times.
- `FileReader` asynchrony: the photos are appended in file order as the loop visits them. In the script the order of the `onload` callbacks, and so of the pushes, is not fixed.
- The photo previews, and the toast per skipped file.
- `Decimals.ToFixed6`: rounds the exact decimal value half up at the seventh place. IEEE-754 double rounding is not modelled; neither are exponent forms or values from 1e21 up. A negative value that rounds to zero keeps its sign, as JavaScript prints it.
- `Strings.Lower`: lower-cases ASCII letters only; the rest of Unicode case mapping is not modelled.
- `Highlight.MatchesHere`: compares after `Strings.Lower`, so case-insensitive matching beyond ASCII is not modelled either.
- General regular expressions: only the nine fixed patterns and the literal pattern built by `escapeRegex` are modelled.
- `Resolution.Refix`: gives `NaN` for a part that does not start with a `-?\d+\.\d+` numeral. `parseFloat` would also read an integer or a numeral prefix. On every path through the model the part is a printed numeral (`Resolution.SplitRendered`), so the difference cannot arise.
- The catch block of `extractCoordinatesFromURL`: no modelled step throws. The only throwing path builds the placeholder address from coordinates without a comma, and `Resolution.DecideExtracted` proves that it is never taken.
- `encodeURIComponent`, and opening the share URLs with `window.open`.
- The clipboard API, its fallback through a temporary text area, and the `Blob` download of the vCard.
- The share texts are stated line by line for records whose fields (the vCard's address apart) contain no line break. A field with a line break splits its line.
- The vCard keeps the script's line feeds, where RFC 2426 asks for CRLF, and the white-space line the template leaves before the `URL` or `END` line.
- The map link default compares the coordinates as typed, not the defaulted ones, with `Not provided`: empty coordinates give the link `https://maps.google.com/?q=`. The model keeps that behaviour.
- Manual coordinate entry through `prompt` and `parseFloat` on free text, and the `navigator.geolocation` callbacks: browser dialogs and asynchronous callbacks.
- The keyboard shortcut handler: it calls a `closeBackupModal` that is not defined in the script.
- `setTheme`'s writes to the page attribute and to storage; only the theme chosen and the icon are modelled.
