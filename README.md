# OFAC sanctions cache — a Dafny model

This project models the core of a small Node.js server (`server.js`) that downloads the
OFAC Specially Designated Nationals (SDN) list as XML, flattens each `sdnEntry` into a
record, keeps the records in one in-memory cache object `{data, lastUpdated, count}`,
saves that object to a JSON file, and answers list and search requests from it.

Modules:

- `Wrappers` (`wrappers.dfy`): `Option` (a value or `undefined`) and `Result` (a value or
  a thrown error).
- `Text` (`text.dfy`): the JavaScript string operations the code uses — `trim` (with the
  ECMAScript white-space set), `join`, `toLowerCase` (ASCII letters), `includes` — and
  `Split`, the inverse of `Join` used to state that joining loses nothing.
- `Entries` (`entries.dfy`): the parser's output for the feed (`explicitArray: false`, so
  every child is missing, a single value or an array: `Field = Absent | Single | Many`),
  the flat `Record`, the per-field rules, `Normalize` for one entry, `NormalizeAll` for
  the `map`, and `Decode`, everything a refresh does before it touches the cache.
- `Query` (`query.dfy`): the search — validation, case-insensitive substring filter over
  name, uid, countries and programs, `slice(0, limit)` with JavaScript's negative-end rule,
  and the dataset total.
- `Server` (`server.dfy`): class `SanctionsServer` with the mutable `cache` (a `Snapshot`,
  replaced whole, as the code reassigns `sanctionsCache`) and the cache `file`; methods for
  save, load, refresh, the list handler, the search handler and start-up, plus two client
  scenarios (save-then-load, restart while offline).

The download-and-parse outcome (`Fetched`), the timestamp (`now`) and whether the file
write succeeds (`writeSucceeds`) are parameters.

Behaviour of the code that the model keeps on purpose:

- A list container that is present but holds no item child (a `programList` holding only
  other elements, say) yields `undefined`, unlike the `"N/A"` of a missing or empty
  container, which the parser gives as a falsy `''`; an absent `sdnType` with blank
  names yields an `undefined` name.
- Some feed shapes throw, which aborts the refresh before the cache is assigned: no
  `sdnList` root (reading its `sdnEntry` throws, server.js:92), exactly one non-empty
  `sdnEntry` (the parser gives an object, which has no `map`), and an `addressList`
  without an `address` (reading `address1` of `undefined` inside the `map`).
- The loaded file is not validated: whatever snapshot it holds becomes the cache, so the
  `count == |data|` invariant (`Valid`) holds after a load only when it held in the file.
- The code has no guard against two refreshes running at once; neither does the model.

## Model

| member | source | states |
|---|---|---|
| Text.Trim | server.js:97 | `trim` gives the empty string exactly when the input is all white space, and otherwise text that neither starts nor ends with white space |
| Text.TrimIsInfix | server.js:97 | the trimmed text is an infix of the input with nothing but white space before and after it |
| Text.TrimBlankPrefix | server.js:97 | white space in front (the `" "` after a missing first name) does not change the trimmed text |
| Text.TrimBlankSuffix | server.js:97 | white space behind (the `" "` before a missing last name) does not change the trimmed text |
| Text.Join | server.js:100 | `join` of no items is empty, of one item is that item, and of more starts with the first item and the separator |
| Text.SplitJoin | server.js:99-113 | splitting a joined list at the separator gives back the items when none contains the separator's first character |
| Text.Lower | server.js:191 | `toLowerCase` keeps the length and lowers each ASCII letter in place |
| Text.LowerKeepsIncludes | server.js:191-197 | an occurrence of the query survives lower-casing of both sides |
| Entries.DisplayName | server.js:97 | the name is the type exactly when both name parts are blank; otherwise a non-empty string with no white space at either end |
| Entries.DisplayNameIsInfix | server.js:97 | a non-blank name is the infix of `first + " " + last` with only white space around it |
| Entries.NameOfBothParts | server.js:97 | two trimmed, non-empty name parts give exactly `first + " " + last` |
| Entries.NameOfLastOnly | server.js:97 | with no first name the name is the trimmed last name, or the type when that is blank |
| Entries.NameOfFirstOnly | server.js:97 | with no last name the name is the trimmed first name, or the type when that is blank |
| Entries.ListField | server.js:99-102 | programs, citizenships, dates of birth: `"N/A"` without a container, `undefined` for a container without its item, otherwise the items joined with `", "` |
| Entries.ListFieldRecoversItems | server.js:99-102 | the list text depends only on the items (single value and one-element array agree) and the items can be split back out |
| Entries.RenderAddress | server.js:105-106 | one address is empty exactly when all its parts are blank, and otherwise has no white space at either end |
| Entries.RenderAddressIsInfix | server.js:105-106 | the rendered address is the infix of `address1 city country` with only white space around it |
| Entries.AddressOfAllParts | server.js:105-106 | an address whose first part starts and last part ends with non-white space renders as `address1 + " " + city + " " + country` exactly |
| Entries.AddressesField | server.js:103-107 | `"N/A"` without a container, a throw exactly when the container has no `address` child, otherwise the rendered addresses joined with `"; "` |
| Entries.AddressesRecoverable | server.js:103-107 | the addresses text is recoverable by splitting at `"; "` when no rendered address holds a `;` |
| Entries.RemarksField | server.js:108 | remarks are never empty: the remarks when non-empty, `"N/A"` when missing or empty |
| Entries.Normalize | server.js:95-114 | one entry fails exactly when its address list lacks an address; otherwise each record property comes from its own entry field by its rule (uid and type as they are, name, programs, countries, addresses, remarks, date of birth) |
| Entries.MapAll | server.js:95 | `map` with a callback that may throw: all results in order, or the error of the first element that throws |
| Entries.NormalizeAll | server.js:95-114 | the `map` succeeds exactly when every entry does, giving one record per entry in order, else the error of the first failing entry |
| Entries.EntriesOf | server.js:92-95 | no `sdnList` throws, a single entry throws, otherwise the entries are the parsed `sdnEntry` items in order (none when absent) |
| Entries.Decode | server.js:82-114 | a failed download or parse is rethrown, an entry-list error is passed on; otherwise it succeeds exactly when every entry normalises, giving one record per entry in order, else the first failing entry's error |
| Query.IsValidQuery | server.js:183 | a query passes exactly when it is a non-empty string; a missing query, the empty string and non-strings are rejected |
| Query.LimitOf | server.js:181 | the default of 100 applies only when `limit` is missing |
| Query.IsHit | server.js:193-198 | a record is a hit exactly when one of name, uid, countries, programs is non-empty and contains the term after lower-casing |
| Query.Filter | server.js:192-198 | the filter keeps only hits and is a subsequence of the cache data |
| Query.FilterKeepsEveryHit | server.js:192-198 | every hit is kept, as many times as it occurs; non-hits are dropped |
| Query.SliceTo | server.js:199 | `slice(0, limit)` is a prefix of length `min(limit, n)`, or `max(n + limit, 0)` for a negative limit |
| Query.PrefixIsSubsequence | server.js:192-199 | cutting the filtered list keeps it a subsequence of the data |
| Query.Search | server.js:181-206 | rejected with 400 exactly when the query is missing, empty or not a string; otherwise a prefix of the hits in order, of length `min(limit, hits)`, or `max(hits + limit, 0)` for a negative limit, with `total` the cache count |
| Query.VerbatimNameIsHit | server.js:191-194 | a record whose name contains the query verbatim is found whatever the case of either |
| Server.ForceRequested | server.js:135 | the string `"true"` forces a refresh, and nothing else does; a missing parameter never does |
| Server.SanctionsServer.constructor | server.js:49-53 | the process starts with an empty cache, beside the file a previous run left |
| Server.SanctionsServer.SaveCacheToFile | server.js:56-63 | a save writes the current cache or, failing, leaves the file; it never changes the cache and never throws |
| Server.SanctionsServer.LoadCacheFromFile | server.js:66-76 | a load answers true and installs the saved snapshot, or answers false and changes nothing |
| Server.SanctionsServer.FetchOfacData | server.js:79-129 | success replaces the cache with the decoded records, `now` and their count, then saves; failure leaves cache and file untouched |
| Server.SanctionsServer.List | server.js:132-177 | cached when not forced and non-empty (no fetch); else fresh on success, stale with a warning on failure if non-empty, 500 if empty |
| Server.SanctionsServer.Search | server.js:179-216 | the search answers from the current cache and changes nothing; with a consistent cache `total` is the number of records |
| Server.SanctionsServer.StartServer | server.js:228-249 | start-up loads the file, then refreshes; after a failed refresh the server holds the loaded snapshot, or the empty cache |
| Server.SaveThenLoad | server.js:56-76 | a saved snapshot is restored unchanged by the next load |
| Server.RestartWhileOffline | server.js:159-168 | after a saved refresh and a restart with the network down, a forced list serves the saved records as cached with the warning |

## Left out

- Express routing, middleware (CORS, helmet, rate limiting), static files and the two
  `app.listen` calls: HTTP plumbing without domain logic.
- The `test-connection` endpoint: it returns two cache fields and has no logic.
- The HTTP GET and its 30-second timeout: a download is a `Fetched` parameter, either a
  failure with its message or the parsed document.
- The XML parser itself: its output is the `Document` datatype. Elements carrying
  attributes, and items that are objects where the code expects strings, are not modelled.
- File I/O and JSON: the file is a field, `JSON.stringify`/`JSON.parse` is taken to round-trip
  a snapshot exactly, a failed write leaves the old file (a partial write is not modelled),
  and a file holding valid JSON of another shape is not modelled.
- The clock: `new Date().toISOString()` is the `now` parameter.
- The six-hour `setInterval` timer and the interleaving of concurrent refreshes. A timer
  refresh that fails is an unhandled promise rejection, whose effect depends on the
  Node.js version; it is not modelled.
- A single empty `<sdnEntry/>`: the parser gives `''`, which `|| []` turns into no
  entries without a throw; the `Field` datatype has no empty-text value, so
  `Entries.EntriesOf` treats every single entry as an object and throws.
- Unicode case mapping: `Text.Lower` lowers the ASCII letters only.
- Console logging.
- The second (EU) data source: it is not part of this model.
- Query.Search: the `limit` is a whole number or missing; strings, fractions and `null`,
  which `slice` converts, are not modelled, nor the 500 path of the search handler, which
  records of the modelled shape cannot reach.
