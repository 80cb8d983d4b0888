# UltraShip TMS core, modelled in Dafny

This project models the logic core of the UltraShip transport management
system: a GraphQL backend over an in-memory shipment store, and a few pure
helpers of its React front end. Each JavaScript module has a Dafny module
of its own:

- `Records` (records.dfy) holds the entities. These are users, shipments,
  shipment inputs, partial updates (`Patch`) and the five thrown errors.
  Weight and cost are integer hundredths, and timestamps are integers.
- `Auth` (auth.dfy) covers token issue and verification, the
  `Authorization` header parsing and the role guards. bcrypt and
  jsonwebtoken are opaque function values (`Crypto`). What the model relies
  on them for is stated as hypotheses (`SoundBcrypt`, `SoundJwt`) on the
  lemmas that need them.
- `Data` (data.dfy) is the record store. The two module-level arrays are the
  fields of the class `Store`, and its methods change them in place:
  `push`, index assignment and `splice`. It also holds the first-match
  lookups and the start-up seeding. Every `Math.random()` draw is an
  arbitrary input (`SeedDraw`), and `now` is a parameter.
- `QueryFilter`, `QuerySort` and `QueryWindow` (filters.dfy, sorting.dfy,
  windowing.dfy) are the query engine of the two shipment queries:
  - the filter callback;
  - the stable comparator sort of a copy;
  - `offset`/`limit` windowing;
  - the cursor connection of `shipmentsPaginated`.
- `Resolvers` (resolvers.dfy) holds the queries and mutations. A thrown
  `Error` is a `Failure`. The mutations call the `Store` methods.
- The front-end modules:
  - `Tracking` (tracking.dfy): the Tracking page's carrier chips, status
    filter and lookups;
  - `ShipmentsList` (shipments_list.dfy): client-side paging, the sort
    toggle and the query variables;
  - `ShipmentFilters` (shipment_filters.dfy): the filter bar's state;
  - `ApolloClient` (apollo_client.dfy): the auth header and the two cache
    merge policies.
- `Wrappers`, `JsString` and `JsArray` (wrappers.dfy, jsstring.dfy,
  jsarray.dfy) give the JavaScript semantics the code depends on:
  - `undefined`, `null` and a value as three cases (`Nullable`);
  - `slice` with negative indices;
  - `find`/`findIndex` take the first match;
  - `replace` with a string pattern replaces only the first occurrence;
  - `<` on strings;
  - `String(n)` and `padStart`;
  - `[...new Set(xs)]`.

Behaviours the model reproduces rather than repairs:
- The search term is one more conjunct after the other criteria.
- An explicit `flagged: null` filter admits nothing.
- Ids are `String(length + 1)`, so a delete followed by a create can
  duplicate an id. Lookups then hit the first match.
- `Bearer ` is removed wherever it first occurs in the header.
- The Tracking page compares lower-case status names against the
  upper-case names the server sends.
- A click on the carrier column header asks for a sort field the schema
  does not have.

## Model

| member | source | states |
|---|---|---|
| Records.ParseStatus | backend/src/schema/typeDefs.js:42-48 | a name is accepted exactly when some status carries it, and then denotes that status |
| Records.StatusName | backend/src/schema/typeDefs.js:42-48 | the enum name each status is sent as; ParseStatusName reads every name back to its status |
| Records.ParseStatusName | backend/src/schema/typeDefs.js:42-48 | every status reads back from its own name |
| Records.ApplyPatch | backend/src/models/data.js:140-144 | the merged record keeps its id, createdAt and createdBy, and its updatedAt is now |
| Records.ApplyPatchGet | backend/src/models/data.js:140-144 | each field of `{...s, ...p}` comes from the patch when the patch has that key (null included), and from the old record otherwise |
| Records.Get | backend/src/models/data.js:140-144 | field access `s[f]` as the merge sees it; ApplyPatchGet states each field of a merged record through it |
| Records.PatchGet | backend/src/resolvers/index.js:195 | whether the input has key f (`input[f] !== undefined`, null counting as present) and its value; ApplyPatchGet and EmployeeViewFields are stated through it |
| Records.MessagesDistinct | backend/src/resolvers/index.js:133-220 | the five thrown messages are pairwise different, so each error is identified by its message |
| Records.Message | backend/src/resolvers/index.js:133-220 | the text each thrown error carries; MessagesDistinct proves the five texts differ |
| JsString.ToLower | backend/src/resolvers/index.js:24-35 | same length, and every character is lowered one by one |
| JsString.LowerChar | backend/src/resolvers/index.js:24-35 | lowering of one character, ASCII letters only; ToLower applies it at every index |
| JsString.ToLowerIdempotent | backend/src/resolvers/index.js:24-35 | lowering twice is lowering once |
| JsString.IncludesIff | backend/src/resolvers/index.js:24-35 | `includes` holds iff the needle occurs at some index |
| JsString.Includes | backend/src/resolvers/index.js:24-35 | `includes`; IncludesIff proves it holds iff the needle occurs at some index |
| JsString.IndexOf | backend/src/auth/auth.js:41 | the first index where the pattern occurs, or -1 iff it occurs nowhere |
| JsString.ReplaceFirst | backend/src/auth/auth.js:41 | the string is unchanged without an occurrence; otherwise its length changes by exactly one pattern |
| JsString.ReplaceFirstOfPrefix | backend/src/auth/auth.js:41 | a string starting with the pattern loses exactly that prefix |
| JsString.ReplaceFirstInMiddle | backend/src/auth/auth.js:41 | a first occurrence after other text is cut out, and everything after it is kept, later occurrences included |
| JsString.StrLessIrreflexive | backend/src/resolvers/index.js:59-60 | no string is `<` itself |
| JsString.StrLess | backend/src/resolvers/index.js:59-60 | `<` on strings, by the first differing character or a proper prefix; the lemmas below prove it a strict total order |
| JsString.StrLessTransitive | backend/src/resolvers/index.js:59-60 | `<` on strings is transitive |
| JsString.StrLessTotal | backend/src/resolvers/index.js:59-60 | of two different strings one is `<` the other |
| JsString.NatToString | backend/src/models/data.js:78 | `String(i)` is never empty |
| JsString.ParseNatToString | backend/src/models/data.js:78 | the decimal text of a number reads back as that number |
| JsString.NatToStringInjective | backend/src/models/data.js:78 | different numbers get different ids |
| JsString.PadStart | backend/src/models/data.js:79 | the result has length max(len, \|s\|), ends with `s` and is filled in front |
| JsArray.ResolveIndex | backend/src/resolvers/index.js:74-77 | a `slice` index lies in the array; a natural index stays put, and one past the end clamps to the length |
| JsArray.Slice | backend/src/resolvers/index.js:74-77 | with non-negative arguments, the clamped subrange; every element of a slice from a natural start comes from its place in the input |
| JsArray.SliceNonNegative | backend/src/resolvers/index.js:97 | with non-negative arguments `slice` is `s[min(start,n)..max(that, min(end,n))]` |
| JsArray.SliceFromEnd | backend/src/resolvers/index.js:74 | `slice(-k)` keeps the last k elements |
| JsArray.FindIndex | backend/src/resolvers/index.js:91 | the first index satisfying the predicate, or -1 iff none does |
| JsArray.Find | backend/src/models/data.js:101-103 | the first element satisfying the predicate, or undefined iff none does |
| JsArray.RemoveAt | backend/src/models/data.js:152 | `splice(k, 1)` shifts every later element down by one and keeps the earlier ones |
| JsArray.RemoveAtMultiset | backend/src/models/data.js:152 | exactly one copy of the element at k is removed |
| JsArray.RemoveAtSubsequence | backend/src/models/data.js:152 | the rest keep their relative order |
| JsArray.SubsequenceElements | backend/src/resolvers/index.js:21 | a subsequence is no longer than the whole and has no element the whole lacks |
| JsArray.FilterMembers | backend/src/resolvers/index.js:21 | `filter` keeps an element iff it is in the input and passes; every passing element is kept |
| JsArray.Filter | backend/src/resolvers/index.js:21 | `xs.filter(p)`, never longer than `xs`; the Filter lemmas below characterise what it keeps |
| JsArray.FilterSubsequence | backend/src/resolvers/index.js:21 | the kept elements are a subsequence of the input |
| JsArray.FilterConcat | backend/src/resolvers/index.js:21 | filtering distributes over concatenation |
| JsArray.FilterAll | backend/src/resolvers/index.js:21 | when everything passes, `filter` returns the input |
| JsArray.FilterNone | backend/src/resolvers/index.js:21 | when nothing passes, `filter` returns the empty list |
| JsArray.FilterIdempotent | backend/src/resolvers/index.js:21 | filtering twice with one predicate is filtering once |
| JsArray.FilterMultiset | backend/src/resolvers/index.js:21 | filtering never adds a copy of any element |
| JsArray.FilterCount | backend/src/resolvers/index.js:21 | every copy of a passing element is kept and no copy of a failing one, so the multiplicities are fixed |
| JsArray.IndexOfValue | frontend/src/components/Tracking/Tracking.jsx:36 | the first position holding the value, with no copy before it, or -1 iff the value is absent |
| JsArray.IndexOfValueAt | frontend/src/components/Tracking/Tracking.jsx:36 | the first position holding a value is the one `indexOf` reports |
| JsArray.DistinctMeaning | frontend/src/components/Tracking/Tracking.jsx:36 | `[...new Set(xs)]` has no duplicates, has exactly the values of xs, and lists them in order of first appearance |
| JsArray.Distinct | frontend/src/components/Tracking/Tracking.jsx:36 | `[...new Set(xs)]`, never longer than `xs`; DistinctMeaning states its contents and order |
| Auth.VerifyToken | backend/src/auth/auth.js:30-36 | null iff the library rejects the token, otherwise the library's claims; it never throws |
| Auth.IssuedTokenVerifies | backend/src/auth/auth.js:17-28 | an issued token verifies to exactly the user's id, username, role and email (no password) until seven days pass, and to nobody after |
| Auth.ClaimsOf | backend/src/auth/auth.js:19-24 | the four signed claims, without the password; IssuedTokenVerifies shows verification returns exactly them |
| Auth.GenerateToken | backend/src/auth/auth.js:17-28 | signs the claims at the issue time; IssuedTokenVerifies states what verification returns for seven days and after |
| Auth.GetUserFromToken | backend/src/auth/auth.js:38-43 | an empty header gives no user |
| Auth.BearerHeaderStrips | backend/src/auth/auth.js:41 | "Bearer " + token is verified as exactly the token |
| Auth.BareHeaderVerifiedAsIs | backend/src/auth/auth.js:41 | a header without "Bearer " is verified unchanged |
| Auth.OnlyFirstBearerRemoved | backend/src/auth/auth.js:41 | "Bearer " is removed where it first occurs, not only as a prefix: "xBearer y" is verified as "xy" |
| Auth.ContextUser | backend/src/index.js:50-52 | a request with no Authorization header has no user |
| Auth.RolesExclusive | backend/src/auth/auth.js:45-51 | nobody is admin and employee at once; null is neither; a signed-in user with one of the two enum roles is one of them |
| Auth.IsAdmin | backend/src/auth/auth.js:45-47 | a user is present and has role ADMIN; RolesExclusive and RequireAdmin are stated through it |
| Auth.IsEmployee | backend/src/auth/auth.js:49-51 | a user is present and has role EMPLOYEE; RolesExclusive is stated through it |
| Auth.RequireAuth | backend/src/auth/auth.js:53-58 | fails with "Authentication required" iff there is no user, and otherwise returns the same user |
| Auth.RequireAdmin | backend/src/auth/auth.js:60-66 | authentication is checked first, then a non-admin gets "Admin access required"; succeeds iff the caller is an admin |
| Auth.Me | backend/src/resolvers/index.js:121-129 | null iff there is no caller, otherwise the caller's id, username, role and email |
| Data.FindUserByUsername | backend/src/models/data.js:101-103 | the first user with the name, or undefined iff there is none |
| Data.FindUserById | backend/src/models/data.js:105-107 | the first user with the id, or undefined iff there is none |
| Data.IndexOfShipment | backend/src/models/data.js:137 | the index of the first shipment with the id, or -1 iff there is none |
| Data.FindShipmentById | backend/src/models/data.js:119-121 | undefined iff `findIndex` gives -1, otherwise the record at that index |
| Data.IndexOfUniqueId | backend/src/models/data.js:137 | with distinct ids, looking up a record's id finds that record's index |
| Data.UniqueIds | backend/src/models/data.js:137 | pairwise distinct ids, under which the first-match lookups find each record at its own index |
| Data.UniqueIdsSingleCopies | backend/src/models/data.js:137 | records with distinct ids occur at most once each |
| Data.SubMultisetUniqueIds | backend/src/resolvers/index.js:86-87 | a list drawn from a store with distinct ids has distinct ids |
| Data.SettledDestination | backend/src/models/data.js:72-75 | the destination differs from the origin and is the first pick that does |
| Data.PickDestination | backend/src/models/data.js:72-75 | the retry loop ends on the first pick that differs from the origin |
| Data.ValidDraw | backend/src/models/data.js:66-95 | what the random draws of one pass range over: indices in their tables, and some destination pick differing from the origin |
| Data.SeedOne | backend/src/models/data.js:67-96 | one pass of the seeding loop builds the record the draws determine |
| Data.SeedRecord | backend/src/models/data.js:77-96 | the pushed object for given draws and settled destination; SeedShipmentFacts states its fields |
| Data.SeedShipment | backend/src/models/data.js:67-96 | one pass of the loop on values; SeedOne computes it and SeedShipmentFacts states its fields |
| Data.TrackingNumberFor | backend/src/models/data.js:79 | the `TRK` tracking number of pass i; SeedTrackingNumber states its form and length |
| Data.DimensionsFor | backend/src/models/data.js:85 | the `AxBxC` dimensions text from three draws, each 10..39; not characterised further |
| Data.SeedTrackingNumber | backend/src/models/data.js:79 | seeded tracking numbers are "TRK" + 8 digits, 11 characters |
| Data.SeedPrefix | backend/src/models/data.js:66-97 | after n passes the array holds n records |
| Data.SeedPrefixSnoc | backend/src/models/data.js:66-97 | each pass appends the next record and keeps the earlier ones |
| Data.SeedShipmentFacts | backend/src/models/data.js:77-96 | a seeded record has its index as id, a TRK number, a destination other than its origin, createdBy "admin", updatedAt now, an actualDelivery iff DELIVERED, weight 10.00..510.00, cost 50.00..550.00, and a future estimatedDelivery |
| Data.SeedIdsUnique | backend/src/models/data.js:78 | the seeded ids are pairwise distinct |
| Data.SeedPrefixIds | backend/src/models/data.js:78 | seeded record k has id String(k + 1) |
| Data.SeedId | backend/src/models/data.js:78 | record i gets id String(i) |
| Data.Store.constructor | backend/src/models/data.js:3-4 | both arrays start empty |
| Data.Store.InitializeUsers | backend/src/models/data.js:26-45 | an empty user array receives the admin and employee accounts with hashed passwords; a non-empty one is left alone |
| Data.Store.InitializeShipments | backend/src/models/data.js:61-98 | an empty array receives the fifty seeded records in order; a non-empty one is left alone; users unchanged |
| Data.Store.CreateUser | backend/src/models/data.js:109-117 | appends one user with id String(n + 1) and the hashed password, without a duplicate check; shipments unchanged |
| Data.NewUser | backend/src/models/data.js:109-117 | the record `createUser` builds; Store.CreateUser appends exactly it |
| Data.Store.CreateShipment | backend/src/models/data.js:123-134 | appends one record with id String(n + 1), createdAt = updatedAt = now, the creator, and `flagged` false unless given true |
| Data.NewShipment | backend/src/models/data.js:123-134 | the record `createShipment` builds; CreateKeepsEarlier states its id, timestamps, creator and flag |
| Data.Store.UpdateShipment | backend/src/models/data.js:136-146 | a missing id returns null and changes nothing; otherwise only the first match is replaced, in place, by the merged record, which is returned |
| Data.Store.DeleteShipment | backend/src/models/data.js:148-154 | false and no change for a missing id; otherwise true and exactly the first match spliced out |
| Data.CreateKeepsEarlier | backend/src/models/data.js:123-134 | creation keeps every earlier record and states the new record's id, times, creator and flag |
| Data.IdReuseAfterDelete | backend/src/models/data.js:123-154 | on a store whose ids are "1".."n", deleting any record but the last and then creating one gives two records the same id, and a lookup by that id finds the older one |
| QueryFilter.PassesIff | backend/src/resolvers/index.js:22-38 | the early-return callback admits a record iff every supplied criterion holds, with searchTerm as one more conjunct and null `flagged` admitting nothing |
| QueryFilter.Passes | backend/src/resolvers/index.js:21-38 | the early-return filter callback; PassesIff equates it with the conjunction Admits |
| QueryFilter.Admits | backend/src/resolvers/index.js:22-38 | every supplied criterion holds, null flagged admits nothing, and the search term is one more conjunct |
| QueryFilter.Given | backend/src/resolvers/index.js:22-28 | a text criterion is truthy: present and not empty; EmptyStringsIgnored is stated through it |
| QueryFilter.ContainsCI | backend/src/resolvers/index.js:24-26 | case-insensitive `includes`, both sides lowered |
| QueryFilter.MatchesSearch | backend/src/resolvers/index.js:28-36 | the term occurs, case-insensitively, in the tracking number, customer name, origin, destination or carrier |
| QueryFilter.ApplyFilters | backend/src/resolvers/index.js:18-40 | no filter gives the input unchanged; the result is never longer than the input |
| QueryFilter.ApplyFiltersMeaning | backend/src/resolvers/index.js:18-40 | the result is a subsequence of the input in its order; with a filter every kept record is stored and admitted, every admitted record is kept, each with all its copies |
| QueryFilter.ApplyFiltersIdempotent | backend/src/resolvers/index.js:18-40 | filtering twice with one filter is filtering once |
| QueryFilter.EmptyFilterKeepsAll | backend/src/resolvers/index.js:18-40 | a filter without criteria keeps every record |
| QueryFilter.EmptyStringsIgnored | backend/src/resolvers/index.js:22-28 | empty text criteria filter exactly like omitted ones |
| QueryFilter.SearchTermIsConjunct | backend/src/resolvers/index.js:22-37 | a record the other criteria reject stays rejected whatever the search term |
| QueryFilter.NullFlaggedAdmitsNothing | backend/src/resolvers/index.js:27 | `flagged: null` removes every record |
| QuerySort.KeyOf | backend/src/resolvers/index.js:46-57 | cost and the two dates compare as numbers, every other field as text |
| QuerySort.KeyLessTotal | backend/src/resolvers/index.js:59-60 | two keys of one field are equal or one is `<` the other |
| QuerySort.KeyLess | backend/src/resolvers/index.js:59-60 | `aVal < bVal` on numeric or text keys; the KeyLess lemmas prove it a strict total order per field |
| QuerySort.KeyLessIrreflexive | backend/src/resolvers/index.js:59-60 | no key is `<` itself |
| QuerySort.KeyLessTransitive | backend/src/resolvers/index.js:59-60 | `<` on keys is transitive |
| QuerySort.Compare | backend/src/resolvers/index.js:59-61 | the comparator returns -1, 0 or 1, and 0 iff neither key is `<` the other |
| QuerySort.InOrderMeaning | backend/src/resolvers/index.js:59-60 | a pair is in comparator order iff its keys are non-decreasing (ASC) or non-increasing (DESC) |
| QuerySort.InOrder | backend/src/resolvers/index.js:59-61 | the comparator does not put b before a; InOrderMeaning, InOrderTotal and InOrderTransitive characterise it |
| QuerySort.TieMeansSameKey | backend/src/resolvers/index.js:59-61 | the comparator ties exactly on equal keys |
| QuerySort.InOrderTotal | backend/src/resolvers/index.js:59-61 | every pair is in order one way or the other |
| QuerySort.InOrderTransitive | backend/src/resolvers/index.js:59-61 | comparator order is transitive |
| QuerySort.SortedCons | backend/src/resolvers/index.js:45 | a record that precedes every element of a sorted list can go in front of it |
| QuerySort.Sorted | backend/src/resolvers/index.js:45-62 | every pair in list order is in comparator order; SortBy and ApplySorting promise it |
| QuerySort.InsertFront | backend/src/resolvers/index.js:45 | a record in order with the head of a sorted list can go in front of it |
| QuerySort.InsertBehind | backend/src/resolvers/index.js:45 | the head stays first when the record goes further in; the copies are kept |
| QuerySort.Insert | backend/src/resolvers/index.js:45-62 | insertion adds exactly one copy of the record and keeps a sorted list sorted |
| QuerySort.SortBy | backend/src/resolvers/index.js:45-62 | the sort is a permutation of the input, and the result is sorted |
| QuerySort.ApplySorting | backend/src/resolvers/index.js:42-63 | no sort gives the input; otherwise a sorted permutation of it |
| QuerySort.AdjacentKeys | backend/src/resolvers/index.js:59-60 | neighbouring keys are non-decreasing (ASC) or non-increasing (DESC) |
| QuerySort.InsertStable | backend/src/resolvers/index.js:45 | inserting an earlier record keeps the input order among records of each key |
| QuerySort.SortByStable | backend/src/resolvers/index.js:45-62 | among records with equal keys the input order is kept |
| QuerySort.ApplySortingStable | backend/src/resolvers/index.js:45-62 | `applySorting` is stable |
| QuerySort.SortBySortedIdentity | backend/src/resolvers/index.js:45-62 | an already sorted list comes back unchanged |
| QuerySort.ApplySortingIdempotent | backend/src/resolvers/index.js:42-63 | sorting twice with one sort is sorting once |
| QueryWindow.OffsetWindow | backend/src/resolvers/index.js:73-78 | the window is never longer than the list |
| QueryWindow.OffsetWindowNatural | backend/src/resolvers/index.js:73-78 | with natural offset and limit, the window is `xs[offset..]` cut to `min(limit, max(0, n - offset))` records |
| QueryWindow.OffsetWindowNone | backend/src/resolvers/index.js:73-78 | without offset and limit, the whole list |
| QueryWindow.OffsetWindowNulls | backend/src/resolvers/index.js:73-78 | a null offset is no offset, and a null limit keeps nothing |
| QueryWindow.NegativeOffsetKeepsTail | backend/src/resolvers/index.js:73-75 | an offset of -k keeps the last k records |
| QueryWindow.StartIndex | backend/src/resolvers/index.js:89-95 | the page starts right after the first record with the `after` id, or at 0 when the cursor is absent, empty or not found |
| QueryWindow.FirstCount | backend/src/resolvers/index.js:83 | the page size: 10 when `first` is omitted, 0 for an explicit null; PaginateMeaning is stated through it |
| QueryWindow.EdgesOf | backend/src/resolvers/index.js:102-105 | one edge per record of the page |
| QueryWindow.NodesOfEdges | backend/src/resolvers/index.js:102-105 | every edge's cursor is its node's id, and the nodes are the page |
| QueryWindow.Nodes | backend/src/resolvers/index.js:102-105 | the nodes of an edge list; NodesOfEdges shows they are the page |
| QueryWindow.NodesConcat | frontend/src/apollo/client.js:33 | the nodes of joined edge lists are the joined nodes |
| QueryWindow.CursorOf | backend/src/resolvers/index.js:109-110 | the cursor is the id, or null for an empty id |
| QueryWindow.PageSlice | backend/src/resolvers/index.js:97 | the page is `result[start..min(start + first, n)]` |
| QueryWindow.PaginateMeaning | backend/src/resolvers/index.js:83-114 | the page is `result[start..start+first]`; hasNextPage iff start + first < n; hasPreviousPage iff start > 0; totalCount is n; every cursor is its node's id; the start and end cursors are the first and last ids, or null on an empty page |
| QueryWindow.Paginate | backend/src/resolvers/index.js:89-113 | the connection `shipmentsPaginated` returns; PaginateMeaning states its page, flags, cursors and count |
| QueryWindow.FullPageEnd | backend/src/resolvers/index.js:97-110 | a full page's endCursor is the id `first - 1` places after its start |
| QueryWindow.EndCursorAdvances | backend/src/resolvers/index.js:89-110 | with distinct non-empty ids, passing a page's endCursor as `after` starts the next page right after it |
| QueryWindow.CursorSafe | backend/src/resolvers/index.js:91 | ids are pairwise distinct and not empty, so `findIndex` on an endCursor finds that record |
| QueryWindow.CrawlUnfold | backend/src/resolvers/index.js:98-110 | the walk is the page then the walk from its endCursor while hasNextPage holds, and the page alone after that |
| QueryWindow.Crawl | backend/src/resolvers/index.js:89-110 | the records a client reads following endCursor while hasNextPage holds; CrawlFromCovers and CrawlCoversAll state what it yields |
| QueryWindow.PageNodes | backend/src/resolvers/index.js:97-98 | a page of `first` > 0 records holds `result[start..min(start+first, n)]` and has a successor iff start + first < n |
| QueryWindow.CrawlPage | backend/src/resolvers/index.js:89-110 | a page with a successor holds exactly `first` records, and the next start is right after them; the last page holds the rest |
| QueryWindow.PageStep | backend/src/resolvers/index.js:96-110 | a page with a successor moves the start forward, and its nodes followed by the records from the next start are the records from this start; the last page holds the rest |
| QueryWindow.CrawlStep | backend/src/resolvers/index.js:89-110 | a step of the walk yields `nodes` and goes on from a later start, where `nodes` followed by the records from that start are the records from this start; or it yields the rest and stops |
| QueryWindow.CrawlFromCovers | backend/src/resolvers/index.js:89-110 | following endCursor from any cursor yields every later record exactly once, in order |
| QueryWindow.CrawlCoversAll | backend/src/resolvers/index.js:89-110 | from the first page, the walk yields the whole list, without a gap or a repeat |
| QueryWindow.StartAfterFirst | backend/src/resolvers/index.js:89-95 | a non-empty cursor id first found at record i starts the page at record i + 1 |
| QueryWindow.FullPageAt | backend/src/resolvers/index.js:96-110 | a page that ends before the list does holds the records from its start to `start + first`, has a successor, and ends on the cursor of its last record |
| QueryWindow.DuplicateIdsStall | backend/src/resolvers/index.js:89-110 | when record i is the first with a non-empty id and a later record j (not the last) shares it, the page of j - i records after that id is records i+1..j: it ends on the same id it was asked with and reports a next page, so a client following endCursor repeats that request forever |
| Resolvers.SelectedMeaning | backend/src/resolvers/index.js:70-71 | the filtered and sorted list has the admitted records (same multiset as the filtered list), is sorted when a sort is given, and is the store itself without filter and sort |
| Resolvers.Selected | backend/src/resolvers/index.js:70-71 | applyFilters then applySorting; SelectedMeaning states its contents and order |
| Resolvers.ShipmentsQuery | backend/src/resolvers/index.js:67-81 | fails with "Authentication required" iff there is no caller, and never returns more than the filtered records |
| Resolvers.ShipmentsQueryWindow | backend/src/resolvers/index.js:67-81 | a signed-in caller with natural `offset` and `limit` gets the selection from `offset` on, cut to `min(limit, max(0, n - offset))` records |
| Resolvers.ShipmentsQueryWhole | backend/src/resolvers/index.js:67-81 | a signed-in caller who gives neither `offset` nor `limit` gets the whole selection |
| Resolvers.ShipmentsPaginated | backend/src/resolvers/index.js:83-114 | fails iff there is no caller; totalCount is the number of filtered records |
| Resolvers.SelectedCursorSafe | backend/src/resolvers/index.js:86-87 | distinct non-empty ids in the store stay so in every selection |
| Resolvers.PaginatedWalkCoversSelection | backend/src/resolvers/index.js:83-114 | on an unchanged store with distinct ids, following endCursor from the first page yields the whole filtered, sorted list once, in order |
| Resolvers.ShipmentQuery | backend/src/resolvers/index.js:116-119 | authentication first, then the first record with the id, or null iff there is none |
| Resolvers.Login | backend/src/resolvers/index.js:133-155 | every failure is "Invalid credentials"; success iff the first user with the name has a password matching its hash; the payload is that user's token and public data |
| Resolvers.PublicOf | backend/src/resolvers/index.js:148-153 | the four public fields of a user, without the password; Login, Register and Me return them |
| Resolvers.Register | backend/src/resolvers/index.js:157-181 | a taken name fails with "Username already exists" and changes nothing; otherwise one user is appended (role EMPLOYEE when omitted) and its token returned |
| Resolvers.RegisteredRole | backend/src/resolvers/index.js:157 | the stored role: EMPLOYEE when the argument is omitted |
| Resolvers.RegisterThenLogin | backend/src/resolvers/index.js:133-181 | after a registration, login with the same password succeeds under sound bcrypt; the stored password is not the raw one; the token resolves to the new user for seven days |
| Resolvers.CreateShipment | backend/src/resolvers/index.js:183-186 | a non-admin caller gets the guard's error and nothing changes; an admin's record is appended with the caller's username as createdBy |
| Resolvers.EmployeeViewFields | backend/src/resolvers/index.js:191-198 | the restricted input has a key iff the input has it and the key is status, notes or actualDelivery |
| Resolvers.CopyField | backend/src/resolvers/index.js:194-197 | one pass of the allow-list loop: the key is copied iff the input has it |
| Resolvers.EmployeeView | backend/src/resolvers/index.js:192-198 | the restricted input; EmployeeViewFields states its keys and RestrictInput computes it |
| Resolvers.RestrictInput | backend/src/resolvers/index.js:192-198 | the allow-list loop builds exactly the restricted input |
| Resolvers.UpdateShipment | backend/src/resolvers/index.js:188-207 | authentication first; "Shipment not found" with no change for a missing id; otherwise the first match is merged with the role-restricted input |
| Resolvers.Forwarded | backend/src/resolvers/index.js:191-206 | the input passed to the store: restricted for an employee, whole otherwise; EmployeeUpdateKeepsOthers and AdminUpdateMergesAll state the result |
| Resolvers.EmployeeUpdateKeepsOthers | backend/src/resolvers/index.js:191-201 | an employee's update changes at most status, notes and actualDelivery (and updatedAt); every other field is kept |
| Resolvers.AdminUpdateMergesAll | backend/src/resolvers/index.js:204-206 | an admin's input is merged whole |
| Resolvers.DeleteShipment | backend/src/resolvers/index.js:209-212 | a non-admin caller gets the guard's error and nothing changes; an admin gets true iff a record was removed, and only the first match is removed |
| Resolvers.FlagPatchToggles | backend/src/resolvers/index.js:219 | toggling negates `flagged`, sets updatedAt and changes nothing else; two toggles restore every other field |
| Resolvers.FlagPatch | backend/src/resolvers/index.js:219 | the patch `{flagged: !shipment.flagged}`; FlagPatchToggles states its effect |
| Resolvers.ToggleShipmentFlag | backend/src/resolvers/index.js:214-220 | authentication first; "Shipment not found" for a missing id; otherwise the first match in place with `flagged` negated and updatedAt now |
| Tracking.NonEmptyCarriers | frontend/src/components/Tracking/Tracking.jsx:36 | the truthy carriers are no more than the records |
| Tracking.StatusText | frontend/src/components/Tracking/Tracking.jsx:40-41 | the status as the page receives it: the enum name the server sends |
| Tracking.NonEmptyCarriersMembers | frontend/src/components/Tracking/Tracking.jsx:36 | a name is a truthy carrier iff it is non-empty and some record has it |
| Tracking.CarriersMeaning | frontend/src/components/Tracking/Tracking.jsx:36 | the chips list each non-empty carrier once, nothing else, in order of first mention |
| Tracking.Carriers | frontend/src/components/Tracking/Tracking.jsx:36 | the carrier chips; CarriersMeaning states each appears once, in first-mention order |
| Tracking.FilteredShipmentsMeaning | frontend/src/components/Tracking/Tracking.jsx:38-46 | the visible cards are the records passing both tests, in list order, each with all its copies and nothing else; 'all' with no chip shows the whole list |
| Tracking.StatusMatch | frontend/src/components/Tracking/Tracking.jsx:39-41 | the status button test; StatusGroups states which texts each button admits |
| Tracking.CarrierMatch | frontend/src/components/Tracking/Tracking.jsx:43 | the chip test; CarrierChipsAdmit states it |
| Tracking.Visible | frontend/src/components/Tracking/Tracking.jsx:38-46 | both tests together, as the filter callback |
| Tracking.FilteredShipments | frontend/src/components/Tracking/Tracking.jsx:38-46 | the visible cards; FilteredShipmentsMeaning states which records and how many copies |
| Tracking.CarrierChipsAdmit | frontend/src/components/Tracking/Tracking.jsx:43 | with chips selected, a record passes iff its carrier is one of them |
| Tracking.StatusGroups | frontend/src/components/Tracking/Tracking.jsx:39-41 | 'active' admits exactly "pending" and "in_transit", 'inactive' exactly "delivered" and "cancelled"; "delayed" is in neither |
| Tracking.ServerStatusesNeverGrouped | frontend/src/components/Tracking/Tracking.jsx:38-46 | on the upper-case names the server sends, 'active' and 'inactive' show nothing |
| Tracking.ToggleCarrierMeaning | frontend/src/components/Tracking/Tracking.jsx:48-54 | a selected carrier is removed with all its copies and the rest keep their order; an unselected one is appended; as sets, the symmetric difference with {carrier} |
| Tracking.ToggleCarrier | frontend/src/components/Tracking/Tracking.jsx:48-54 | the state update of a chip click; ToggleCarrierMeaning and ToggleCarrierTwice state it |
| Tracking.ToggleCarrierTwice | frontend/src/components/Tracking/Tracking.jsx:48-54 | toggling twice restores the set of selected carriers |
| Tracking.Progress | frontend/src/components/Tracking/Tracking.jsx:88-97 | the progress is one of 0, 25, 45, 60, 100, and 0 for text that is not a status name |
| Tracking.StatusColor | frontend/src/components/Tracking/Tracking.jsx:56-65 | the color is one of four names, and 'info' for text that is not a status name |
| Tracking.ServerStatusLookups | frontend/src/components/Tracking/Tracking.jsx:56-97 | on server status names the progress is 0 and the color 'info' |
| ShipmentFilters.HandleFilterChange | frontend/src/components/Shipments/ShipmentFilters.jsx:4-9 | the changed key takes the new value and every other key is kept |
| ShipmentFilters.Value | frontend/src/components/Shipments/ShipmentFilters.jsx:4-9 | `filters[key]`; HandleFilterChange and ClearFilters are stated through it |
| ShipmentFilters.ClearFilters | frontend/src/components/Shipments/ShipmentFilters.jsx:11-18 | every key is '' |
| ShipmentFilters.HasActiveFiltersIff | frontend/src/components/Shipments/ShipmentFilters.jsx:20-21 | a filter is active iff some key holds a non-empty text |
| ShipmentFilters.HasActiveFilters | frontend/src/components/Shipments/ShipmentFilters.jsx:20-21 | the `||` of the four texts; HasActiveFiltersIff states it |
| ShipmentFilters.ClearThenChange | frontend/src/components/Shipments/ShipmentFilters.jsx:11-21 | after clearing nothing is active, and one change makes a filter active iff its text is not empty |
| ShipmentFilters.HandleFilterChangeLaws | frontend/src/components/Shipments/ShipmentFilters.jsx:4-9 | writing the current value changes nothing, and a later change of a key overrides an earlier one |
| ShipmentsList.TotalPages | frontend/src/components/Shipments/ShipmentsList.jsx:63-64 | the page count is the ceiling of count / 10: enough pages, none of them superfluous, and none for an empty list |
| ShipmentsList.PageOf | frontend/src/components/Shipments/ShipmentsList.jsx:66-69 | page p is `all[10p..10p+10]`, clamped, with at most 10 records |
| ShipmentsList.PagesPrefix | frontend/src/components/Shipments/ShipmentsList.jsx:64-69 | the first n pages together are the first 10n records |
| ShipmentsList.Pages | frontend/src/components/Shipments/ShipmentsList.jsx:64-69 | the first n pages one after the other; PagesPrefix and PagesCoverAll state what they hold |
| ShipmentsList.PagesCoverAll | frontend/src/components/Shipments/ShipmentsList.jsx:64-69 | all pages together are exactly the fetched list |
| ShipmentsList.PageExists | frontend/src/components/Shipments/ShipmentsList.jsx:63-69 | a page has records iff it is below totalPages |
| ShipmentsList.ButtonsStayInRange | frontend/src/components/Shipments/ShipmentsList.jsx:283-327 | on a page with records, an enabled previous or next button and the last button lead to pages with records; next is disabled exactly on the last page |
| ShipmentsList.BackDisabled | frontend/src/components/Shipments/ShipmentsList.jsx:289-299 | first and previous are disabled on page 0; ButtonsStayInRange is stated through it |
| ShipmentsList.ForwardDisabled | frontend/src/components/Shipments/ShipmentsList.jsx:318-327 | next and last are disabled from page `totalPages - 1` on; ButtonsStayInRange is stated through it |
| ShipmentsList.HandleSort | frontend/src/components/Shipments/ShipmentsList.jsx:83-88 | the field is set; the order is DESC iff the same field was ASC |
| ShipmentsList.HandleSortAlternates | frontend/src/components/Shipments/ShipmentsList.jsx:83-88 | a new column starts ASC, and clicks on the same column alternate the order |
| ShipmentsList.SchemaSortField | backend/src/schema/typeDefs.js:82-90 | a column name is a schema sort field iff it is one of the seven enum names |
| ShipmentsList.SortableColumns | frontend/src/components/Shipments/ShipmentsList.jsx:179-217 | every sortable header but carrier names a schema field; the initial sort is createdAt |
| ShipmentsList.OrUndefined | frontend/src/components/Shipments/ShipmentsList.jsx:34-36 | '' becomes undefined, any other text is sent as it is |
| ShipmentsList.VariablesMeaning | frontend/src/components/Shipments/ShipmentsList.jsx:33-38 | '' is sent as undefined; 'true' and 'false' become booleans; nothing is sent iff no filter is active |
| ShipmentsList.Variables | frontend/src/components/Shipments/ShipmentsList.jsx:33-38 | the `filter` variable built from the bar; VariablesMeaning states each field |
| ShipmentsList.ServerFilterFromBar | frontend/src/components/Shipments/ShipmentsList.jsx:33-38 | every status the menu offers is accepted by the server, and after clearing the server keeps every record |
| ShipmentsList.ServerFilter | backend/src/schema/typeDefs.js:67-75 | the ShipmentFilterInput the server reads, refused when the status is not an enum name; ServerFilterFromBar states it |
| ApolloClient.AuthHeaders | frontend/src/apollo/client.js:8-16 | the authorization key is set and every other header is kept |
| ApolloClient.AuthorizationValue | frontend/src/apollo/client.js:13 | `Bearer ` + token, or empty without a token; AuthHeaders and ClientHeaderResolves are stated through it |
| ApolloClient.ClientHeaderResolves | frontend/src/apollo/client.js:8-16 | the server verifies exactly the stored token, and a request without one is anonymous |
| ApolloClient.MergeShipmentsReplaces | frontend/src/apollo/client.js:22-25 | the cached list is replaced by the incoming one, whatever was cached |
| ApolloClient.MergeShipments | frontend/src/apollo/client.js:22-25 | the `shipments` merge policy; MergeShipmentsReplaces states it ignores the cache |
| ApolloClient.MergePaginated | frontend/src/apollo/client.js:29-35 | with nothing cached, the incoming page; pageInfo and totalCount always come from the incoming page |
| ApolloClient.MergePaginatedNodes | frontend/src/apollo/client.js:31-34 | the merged edges are the cached edges followed by the incoming ones, so the count is the sum |
| ApolloClient.CachedNodes | frontend/src/apollo/client.js:33 | the nodes of the cached edges, none without a cache entry |
| ApolloClient.FetchStep | frontend/src/apollo/client.js:29-35 | one fetch-and-merge step appends the page's nodes to the cache and moves to the page's endCursor |
| ApolloClient.FetchAll | frontend/src/apollo/client.js:29-35 | the cache entry after fetching every page from a cursor; FetchAllNodes, FetchAllLastPage and FetchAllCachesResult state it |
| ApolloClient.FetchAllNodes | frontend/src/apollo/client.js:29-35 | merging along the walk caches the cached nodes followed by exactly what the walk receives |
| ApolloClient.FetchAllLastPage | frontend/src/apollo/client.js:29-35 | the walk stops on a page without a successor, and the count is the list's length |
| ApolloClient.FetchAllCachesResult | frontend/src/apollo/client.js:29-35 | from an empty cache the entry ends up holding every record once, in order, with no next page and the total count |

## Left out

- JsString.ToLower: only ASCII letters are lowered. JavaScript's full Unicode case mapping is not modelled.
- JsString.StrLessTotal: strings compare by code point, where JavaScript compares UTF-16 code units. The two orders differ only above the basic multilingual plane.
- Resolvers.Register: an explicit `role: null` is modelled as an omitted role and defaults to EMPLOYEE. In JavaScript the default applies only to `undefined`, so the server would store a null role.
- Records.ApplyPatch: the update input is a `Patch` in which every key is optional. The schema's `ShipmentInput!` makes the required keys present, so the model covers more inputs than the server accepts. An explicit `null` for `flagged` in a patch is not modelled.
- QuerySort.KeyOf: dates are integers, so an invalid date (`NaN`, which compares false both ways) is not modelled. Cost is integer hundredths, not a `parseFloat` of text.
- The `weight` branch of the comparator: `ShipmentSortField` has no `weight` member, so the branch cannot be reached through the schema.
- Floating point and formatting are not modelled: `toFixed`, `Intl.NumberFormat`, `toLocaleDateString` and `toISOString`.
- bcrypt and jsonwebtoken are opaque functions. The bcrypt salt, the 10 rounds and the JWT secret have no model of their own.
- `Math.random` and `new Date()` in the seed data are arbitrary draws and a `now` parameter. Only what follows from the draws is proved.
- GraphQL argument validation is not modelled, apart from the enums. `ParseStatus` and `SchemaSortField` state which names the schema accepts.
- Not modelled: the Express and Apollo server setup, CORS, `/health`, React rendering, effects and routing. This includes the page reset when filters change.
- ApolloClient.FetchAll is a client scenario (requesting pages after `endCursor` and merging each one), not a function of client.js. Network errors, `keyArgs` and the other cache options are not modelled.
- `localStorage` is a parameter: the stored token is an `Option<string>`.
- The case of header names: the header the client sets and `req.headers.authorization` are taken to be the same key.
- Concurrency: resolvers run one at a time. The bcrypt awaits are single atomic steps.
- Auth.RolesExclusive: a session's role is always one of the two enum values. In the source, `register(role: null)` stores a null role, and such a caller is neither admin nor employee. `requireAdmin` refuses them, but the updateShipment resolver (Resolvers.UpdateShipment) would forward their whole input unrestricted, as it does for an admin. The model does not capture that caller.
- Tracking.Progress, Tracking.StatusColor: the lookups are plain JavaScript objects, so a key such as "toString" or "constructor" returns an inherited value instead of 0 or 'info'. The model treats every non-status text as unknown.
- Data.ValidDraw: it requires some destination pick that differs from the origin. This stands in for the `while (destination === origin)` retry loop, which ends only with probability 1; a draw that never differs is not modelled.
- Dashboard.jsx and the other front-end components are not part of this model.
