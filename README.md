# Comment tree service — Dafny model

This project models the core of a threaded-comment service written in Go.
Comments form a tree of replies. The store encodes that tree as a
*materialized path* on each record: a root's path is its own 24-character
hexadecimal identifier, and a reply's path is its parent's path, a `/` and its
own identifier. A thread is fetched or deleted by selecting every record whose
path starts with the anchor's path. Search is a paged browse of the whole
collection, or a relevance-ranked text match.

The model has four layers, one module each:

- `Storage` (storage.dfy) holds the comment store. It is a class over an
  in-memory collection `records: seq<Comment>`. `Create` and `DeleteThread`
  are methods that change the collection. Their postconditions tie the new
  state to the pure functions `CreateOutcome` and `DeleteOutcome`, and the
  lemmas about those functions carry the proofs. `GetThread` and `Search` are
  read-only functions that filter, sort, skip and limit.
- `Service` (service.dfy) models the comments service. It is a stateless
  façade: it parses identifier strings, answers `InvalidID` without consulting
  the store when they do not parse, and forwards everything else unchanged.
- `FindHandler` (find_handler.dfy) and `SaveHandler` (save_handler.dfy) model
  the request logic of the HTTP handlers: parameter defaults and overrides,
  the sort whitelist, the validation order and the status mapping. Each
  handler takes its collaborator (getter, searcher, saver) as a function
  parameter, as the Go code takes an interface. The exchange it returns
  records which call was made, if any.

Supporting modules:

- `ObjectIds` models the driver's 12-byte identifiers, `Hex()` and
  `ObjectIDFromHex`.
- `Ordering` models the query operators: filter, sort on one key, and
  skip-then-limit.
- `PathTree` holds the tree invariant, the parent relation and the central
  theorem.
- `Scenario` walks a root, a reply, a fetch and two deletions through the
  store's contracts, with small lemmas that work out the filter and the sort
  on its two-record collection.

The central theorem is `PathTree.PrefixIffDescendant`. In a well-formed store,
a record's path has A's path as a prefix exactly when the record is A or a
descendant of A. "Descendant" is defined by following `parentId` links
(`AncestorAt`), independently of paths. The proof uses the fixed segment
length: every path is 24 characters modulo 25, so a shorter path that is a
prefix ends on a segment boundary. `PathTree.PathShape` also shows that paths
contain only lower-case hexadecimal digits and `/`. The anchored regular
expression `"^" + path` that the store builds is therefore exactly the literal
prefix test `HasPrefix`.

Modelling decisions:

- Identifier generation is a parameter `newId`. The method requires it to
  differ from every stored identifier, which is the generator's uniqueness
  guarantee.
- The two clock readings of `Create` are two parameters, `createdAt` and
  `updatedAt`. The Go code calls the clock twice, so the two values may differ.
- Text matching and the relevance score are parameters `matches` and `score`,
  so both stay uninterpreted. The score is an integer rank.
- `ObjectIDFromHex` accepts exactly 24 hexadecimal digits of either case.
  `Hex()` prints lower case. Both follow the documented behaviour of the
  driver's `bson` package and of Go's `encoding/hex`; that library code is not
  part of this model.
- `strconv.Atoi` accepts an optional sign followed by one or more decimal
  digits, with the value inside the 64-bit `int` range. This also follows the
  library's documented behaviour.
- A query string is a map from each parameter to its first value. A missing
  parameter reads as `""`, as `url.Values.Get` does.
- `Time` is the value the store keeps: a BSON date, whole milliseconds since
  the epoch. The Go clock reading is finer, so two comments created within
  one millisecond carry equal `created_at` values in the store.
  The clock parameters of `Create` are these stored values. In the Go code,
  the comment `Create` fills in, and that the save handler sends back in its
  200 response, keeps the finer clock reading. The stored record's timestamps
  are truncated to the millisecond. The model makes the two identical.
- The store sorts on `created_at` (or on the score) alone, with no
  tie-breaker, so each query may order records with equal keys differently.
  The model's query functions fix one arrangement through `Ordering.SortBy`.
  The contracts of `GetThread` and `Search` say that each result is the
  skip-then-limit page of some sorted arrangement of the thread, the whole
  collection, or the matching records. They are written with an existential,
  so every tie order meets them. The paging lemma
  `Storage.ThreadPagesConcatenate` quantifies over the arrangements that two
  separate queries may produce, and needs distinct creation times
  (`Storage.TiedPagesMayRepeat` shows why).

Behaviour worth noting:

- A malformed identifier reaches the thread handler as `InvalidID` and
  becomes status 500, not a client error.
- `GetThread` includes the anchor itself in its result.
- `GetThread` sorts descending for every `sort` value other than `"asc"`; only
  the handler whitelists the value.
- The empty-query search orders by `created_at` descending, non-strictly.

## Model

| member | source | states |
|---|---|---|
| ObjectIds.Hex | intenal/storage/mongodb/storage.go:67-69 | an identifier prints as exactly 24 lower-case hexadecimal digits |
| ObjectIds.ObjectIDFromHex | intenal/service/comment.go:39-42 | parsing succeeds exactly on 24 hexadecimal digits (either case) |
| ObjectIds.HexRoundTrip | intenal/service/comment.go:39 | parsing a printed identifier gives the identifier back |
| ObjectIds.ParseRoundTrip | intenal/service/comment.go:39 | printing a parsed identifier gives the input in lower case; a lower-case input is reproduced exactly |
| ObjectIds.HexInjective | intenal/storage/mongodb/storage.go:67-69 | distinct identifiers have distinct printed forms, so path segments identify records |
| ObjectIds.FromHexIgnoresCase | intenal/service/comment.go:39-42 | an identifier string and its lower-case spelling parse to the same result |
| Ordering.Filter | intenal/storage/mongodb/storage.go:83 | keeps exactly the elements the filter accepts and adds none |
| Ordering.FilterAppend | intenal/storage/mongodb/storage.go:83 | filtering distributes over concatenation, so accepted elements keep their relative order and their multiplicity |
| Ordering.SortBy | intenal/storage/mongodb/storage.go:88-92 | the result is sorted on the key in the given direction and is a permutation of the input |
| Ordering.Page | intenal/storage/mongodb/storage.go:84-86 | skip `offset` then keep at most `limit`: the window of the input starting at `offset` |
| Ordering.PageOfSorted | intenal/storage/mongodb/storage.go:84-92 | a page of a sorted sequence is sorted and holds only its elements |
| Ordering.PagesConcatenate | intenal/storage/mongodb/storage.go:84-86 | two consecutive pages make up the page spanning both |
| Ordering.SortedUnique | intenal/storage/mongodb/storage.go:88-92 | when no two elements share a key, any two sorted permutations of the same elements are equal |
| Ordering.PagesCover | intenal/storage/mongodb/storage.go:84-86 | pages of size k from offset 0 reproduce the sequence exactly once, with no gaps and no duplicates |
| PathTree.ChildPath | intenal/storage/mongodb/storage.go:67 | a reply's path extends its parent's by a separator and the 24-character identifier |
| PathTree.FindById | intenal/storage/mongodb/storage.go:63 | the lookup returns a stored record with that identifier, or none exists |
| PathTree.FindUnique | intenal/storage/mongodb/storage.go:78 | with unique identifiers, the lookup finds the one record carrying the identifier |
| PathTree.SameIdSameRecord | intenal/storage/mongodb/storage.go:109 | two stored records with the same identifier are the same record |
| PathTree.PathShape | intenal/storage/mongodb/storage.go:61-70 | every path is 24 characters modulo 25, ends with the record's own identifier, and holds only hexadecimal digits and '/' |
| PathTree.PathsUnique | intenal/storage/mongodb/storage.go:61-70 | distinct records have distinct paths |
| PathTree.AncestorPrefix | intenal/storage/mongodb/storage.go:83 | every ancestor's path is a prefix of the descendant's path |
| PathTree.PrefixAncestor | intenal/storage/mongodb/storage.go:83 | a record whose path has A's path as a prefix is A or lies below A |
| PathTree.PrefixIffDescendant | intenal/storage/mongodb/storage.go:83 | the prefix test holds exactly for A and its descendants |
| Storage.SortDirection | intenal/storage/mongodb/storage.go:88-92 | ascending exactly when `sort` is "asc", descending for any other value |
| Storage.CreateOutcome | intenal/storage/mongodb/storage.go:56-74 | id and timestamps are always overwritten; root path = own hex; reply path = parent path + "/" + hex; missing parent gives ParentNotFound, inserts nothing and leaves the caller's path; success appends exactly the new record |
| Storage.CommentStore.Create | intenal/storage/mongodb/storage.go:56-74 | fills in the caller's comment and inserts it as CreateOutcome says, keeping the tree invariant |
| Storage.CreatePreservesWellFormed | intenal/storage/mongodb/storage.go:56-74 | with a fresh identifier, Create keeps identifiers unique and every parent present with a matching path |
| Storage.ReplyJoinsParentThread | intenal/storage/mongodb/storage.go:61-67 | a new reply lies in its parent's thread, by path and by parent links |
| Storage.CommentStore.GetThread | intenal/storage/mongodb/storage.go:76-105 | ParentNotFound exactly when the parent is absent; otherwise the page skipping `offset` and keeping at most `limit` records of some arrangement of the records under the parent's path sorted by creation time in the requested direction |
| Storage.ThreadIsSubtree | intenal/storage/mongodb/storage.go:76-105 | GetThread returns only the parent and its descendants, and with a large enough page, all of them, each once |
| Storage.ThreadPagesConcatenate | intenal/storage/mongodb/storage.go:83-92 | when the thread's records have distinct creation times, two consecutive pages, each cut from any order a separate query may produce, join into the spanning page of GetThread without gap or repetition |
| Storage.TiedPagesMayRepeat | intenal/storage/mongodb/storage.go:84-92 | with two records of equal creation time both orders are valid sorts, and pages cut from the two orders can return one record twice and miss the other |
| Storage.DeleteOutcome | intenal/storage/mongodb/storage.go:107-114 | an absent id gives NotFound and deletes nothing; otherwise exactly the records under the target's path are removed |
| Storage.CommentStore.DeleteThread | intenal/storage/mongodb/storage.go:107-114 | removes records as DeleteOutcome says, keeping the tree invariant |
| Storage.DeletePreservesWellFormed | intenal/storage/mongodb/storage.go:107-114 | after a subtree deletion no kept record is orphaned and identifiers stay unique |
| Storage.DeleteRemovesSubtree | intenal/storage/mongodb/storage.go:112 | the deletion removes exactly the target and its descendants and keeps every other record |
| Storage.DeleteTwiceFails | intenal/storage/mongodb/storage.go:109-110 | a second deletion of the same id fails with NotFound |
| Storage.CommentStore.Search | intenal/storage/mongodb/storage.go:116-140 | the page skipping `offset` and keeping at most `limit` records of some sorted arrangement: for a non-empty query, of the matching records by descending score; for the empty query, of every record, newest first |
| Storage.SearchBrowsesAll | intenal/storage/mongodb/storage.go:125-127 | the empty-query search with a large enough page returns every record exactly once |
| Storage.SearchFindsAllMatches | intenal/storage/mongodb/storage.go:122-124 | a text search with a large enough page returns exactly the matching records, each once |
| Service.CommentsService.constructor | intenal/service/comment.go:20-26 | the only state is the storage reference the constructor sets |
| Service.CommentsService.SaveComment | intenal/service/comment.go:28-33 | no validation: the store's Create outcome is passed through unchanged |
| Service.CommentsService.GetThread | intenal/service/comment.go:35-45 | an unparsable id gives InvalidID independent of the store; otherwise the store's result for the decoded id, limit, offset and sort, unchanged |
| Service.CommentsService.DeleteThread | intenal/service/comment.go:47-57 | an unparsable id gives InvalidID and leaves the store untouched; otherwise the store's deletion for the decoded id, unchanged |
| Service.CommentsService.Search | intenal/service/comment.go:58-63 | no validation: the store's search result is passed through unchanged |
| Service.PrintedIdFindsThread | intenal/service/comment.go:39-44 | the thread of a stored comment's printed id is found and holds only that comment and its descendants |
| Service.ThreadIgnoresIdCase | intenal/service/comment.go:39-44 | upper- and lower-case spellings of an id fetch the same thread |
| FindHandler.Atoi | intenal/http-server/handlers/comment/find/find.go:40 | a parse succeeds only on a signed decimal inside the 64-bit range; the empty string fails |
| FindHandler.AtoiFormat | intenal/http-server/handlers/comment/find/find.go:40 | every 64-bit integer written in decimal parses back to itself |
| FindHandler.IntParam | intenal/http-server/handlers/comment/find/find.go:39-48 | the default is replaced exactly when the parameter parses as an integer |
| FindHandler.SortParam | intenal/http-server/handlers/comment/find/find.go:37-53 | always "asc" or "desc"; "desc" only when requested exactly |
| FindHandler.ThreadParams | intenal/http-server/handlers/comment/find/find.go:28-53 | rejected exactly when `parent` is empty or missing; otherwise limit and offset are the defaults 20 and 0, each replaced when its parameter parses as an integer (`IntParam`), and the sort is `SortParam`, always "asc" or "desc" |
| FindHandler.ThreadDefaults | intenal/http-server/handlers/comment/find/find.go:35-37 | with only `parent` given: limit 20, offset 0, sort "asc" |
| FindHandler.LimitNotRangeChecked | intenal/http-server/handlers/comment/find/find.go:39-43 | any 64-bit limit, zero and negatives included, is forwarded as written |
| FindHandler.GetHandler | intenal/http-server/handlers/comment/find/find.go:26-71 | 400 without a getter call when `parent` is missing; otherwise one call with the normalised parameters, then 200 with its comments or 500 on any error, InvalidID included |
| FindHandler.SearchHandler | intenal/http-server/handlers/comment/find/find.go:73-102 | one call with `query` verbatim and the same limit and offset rules; 200 with the comments or 500 on error |
| SaveHandler.Handle | intenal/http-server/handlers/comment/save/save.go:19-52 | 400 for an undecodable body, then for empty content, then for an empty author, without saving; otherwise one save call, then 500 on error or 200 with the comment as the saver filled it in |
| SaveHandler.SavedCommentHasPath | intenal/http-server/handlers/comment/save/save.go:41-50 | backed by the store, a 200 response carries the new id and a path that satisfies the tree invariant; a reply to an absent parent gets 500 |

## Left out

- Connecting to the store, pinging it, creating its indexes and closing it (`NewMongoStorage`, `Close`). This is network I/O; the model starts from an empty in-memory collection.
- The two-second per-call deadlines of the service. They are wall-clock timing.
- Concurrency. The model is sequential, so the window between the parent lookup and the insert in `Create` is not modelled, and neither are the orphans a concurrent `DeleteThread` can leave. In the model every reachable store satisfies the tree invariant.
- Driver and connection failures of `FindOne`, `InsertOne`, `Find`, cursor reading and `DeleteMany`. The in-memory store has none, so the only storage errors are ParentNotFound and NotFound, and `Search` always succeeds.
- The regular-expression engine. The anchored pattern is modelled as the literal prefix test, which `PathTree.PathShape` justifies for the stored paths.
- The internals of `$text` tokenisation and of `textScore`. They are the uninterpreted parameters `matches` and `score`.
- Storage.CommentStore.GetThread: requires `limit > 0` and `offset >= 0`, because the store's treatment of a zero or negative limit and of a negative skip is not modelled.
- Storage.CommentStore.Search: requires `limit > 0` and `offset >= 0`, for the same reason.
- Service.CommentsService.GetThread: requires `limit > 0` and `offset >= 0`, inherited from the store's paging; the handler can forward other values (`FindHandler.LimitNotRangeChecked`).
- Service.CommentsService.Search: requires `limit > 0` and `offset >= 0`, inherited likewise.
- Storage.CreateOutcome: the filled comment and the stored record carry the same timestamps, the stored millisecond values. In Go, the comment returned by `Create`, and sent back by the save handler, keeps the finer `time.Now()` reading.
- Storage.ThreadPagesConcatenate: requires distinct creation times within the thread. The store sorts on `created_at` alone and may break ties differently on each query, so with tied records pages need not join (`Storage.TiedPagesMayRepeat`). The model's `GetThread` itself uses one fixed tie order for every query.
- Storage.CommentStore.Create: requires the generated identifier to be absent from the store, which is the generator's uniqueness guarantee; duplicate-key insert failures are therefore not modelled.
- JSON encoding and decoding, HTTP status writing and logging. A body that fails to decode is the `None` input of `SaveHandler.Handle`.
- The delete handler, router wiring, CORS, configuration loading and logger construction. They are transport and process set-up outside the core.
