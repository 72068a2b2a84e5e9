# skit-x, modelled in Dafny

skit-x is a small service with widgets, products and users. Most of it is wiring, but four
pieces make promises over unbounded runs: listings paged by an opaque cursor, an event that
is published for every created widget and recorded once, requests that run once per
idempotency key, and batch imports that may be replayed. This project models those pieces and
proves what they promise, or finds exactly when a promise is kept.

What the service builds on and does not own is explicit state with failing steps: the tables,
the transaction, the durable queue, the broker, the keeper of idempotency records. Each is
given the contract the comments and tests of the repository state and no more: a callback may
be run again, a commit may be lost before or after it is applied, a delivery may be repeated,
a consumer may crash between any two of its steps, a store may be down.

| module | what it holds |
|---|---|
| `Numerals`, `Calendar`, `CursorCodec` | the text of a cursor key: RFC3339Nano (section 5.6 of RFC 3339) in UTC, a bar, a UUID (section 4 of RFC 9562), and reading it back as the time parser and the database do |
| `TextSearch` | the case-insensitive LIKE of the text filters against plain substring search |
| `Selections`, `OffsetPages` | SELECT with a condition and an order, count, offset pages |
| `Keyset`, `ConcurrentWalk` | one keyset page; a walk over a table at rest; a walk over a table that changes between fetches |
| `TokenWalks`, `CursorTokens` | the same walks by the text tokens a client sends back, and the tokens of the stores |
| `ProductQueries`, `ProductListings` | the product store: bound conditions, the three reads, how they agree |
| `StableWalks`, `ProductHistory` | runs of the products table with the walks taken meanwhile |
| `KeyEncoding` | the escaped composite keys of idempotency records (section 2.1 of RFC 3986) |
| `Dedup`, `IdempotentHttp` | the keeper as its callers see it; the HTTP middleware over every interleaving of requests |
| `EventPipeline` | committed create, queue, broker, consumer, dedup wrapper, event log, as one state machine of thirteen steps |
| `WidgetTable`, `WidgetStore`, `WidgetImport`, `WidgetHistory` | the widgets table, the store and the importer over it, and runs of them all with the walks taken meanwhile |
| `Outbox`, `CreatedEvents` | the row and its event in one transaction, a store inside an outer transaction, racing partial updates; and the outbox joined to the pipeline |

The main results:

- `ConcurrentWalk.ReturnedIffPresentAtItsPage`: the next keys cut the key space into one
  interval a page, so a row is returned exactly when it was in the table, and matched, as its
  page was fetched. `WidgetHistory.WidgetWalkIsStable` and `ProductHistory.ProductWalkIsStable`
  turn this into the promise about clients that follow tokens, over any run of the code.
- `Keyset.LookAheadExact`, `ProductListings.TokensAgreeWithOffsetAndCount`: the keyset form
  refines the offset form, reply by reply, up to the empty token.
- `EventPipeline.EventsRecordedOnceAndKept`, `AlwaysRecoverable`,
  `EventsComeToRest`, `CreatedEvents.CreatedWidgetsRecordedOnce`: from the create's transaction
  to the log, each event is recorded at most once and never lost, and no failure keeps it from
  being logged and its deliveries from being acked.
- `IdempotentHttp.StoredIsFinal`, `RunsAreFreesAndRecord`: once per key, one answer.
- `WidgetTable.ReplayAbsorbs`, `WidgetHistory.WholeBatchStays`, `BackAtTheEndIff`: replaying an
  import from any point of failure changes nothing but what was missing.
- `Outbox.BothOrNeither`: the row and its event, or neither, however often the callback ran.

## Where the code does not do what its comments say

- A filter by name is documented as a case-insensitive substring match. It is one exactly when
  the text holds none of `%`, `_` and `\` (`TextSearch.SubstringSearchIffPlain`): a search for
  `50%` finds `500`, and one for `a\b` does not find `a\b` (`PercentFindsMore`,
  `BackslashFindsLess`).
- Callers are said never to share idempotency keys. A principal with the subject `anonymous`
  does, with the callers that have none (`KeyEncoding.HttpKeysShared`, `AnonymousSharesAKey`).
- A request whose handler ran is answered with what the handler returned, unless that is a nil
  response and the store fails late: then it gets 409, 503 or 500 (`IdempotentHttp.OwnResponseIff`).
- Replaying an import is called harmless. A statement changes nothing exactly when all its rows
  are there (`WidgetTable.NoChangeIff`); a row deleted since is back exactly when a statement
  with it goes through again (`WidgetHistory.BroughtBackIff`, `BackAtTheEndIff`,
  `AttemptBringsBackIff`), as it was first drawn. And a name taken meanwhile fails the
  statement: exactly when the names of the missing rows are not new (`WidgetTable.BulkSucceedsIff`),
  for instance after a batch that stopped half way (`WidgetHistory.ReplayFailsOnTakenName`).
- A partial update reads and writes outside any transaction. Of two that both read first, the
  last writer puts back the old value of every field it does not set itself, so the change of
  the first writer is lost, exactly unless it changed no such field (`Outbox.RacingUpdatesIff`,
  `RenameLost`).

A cursor key has room for years of four digits: a walk over a table at rest ends exactly when
the rows that end its pages are of such years (`ProductListings.TokensLeadToTheEndIff`). The
rows the service writes are, since it stamps them with the clock.

## Model

| member | source | states |
|---|---|---|
| `Calendar.ToCivil` | core/product/productdb/productdb.go:228 | every instant has one valid civil date and time of day, in proleptic Gregorian years, and converts back to itself |
| `Calendar.CivilUnique` | core/product/productdb/productdb.go:228 | valid fields are the fields of the instant they stand for, so an instant has no others |
| `Calendar.MonthLengths` | core/product/productdb/productdb.go:228 | the lengths of the twelve months, February by the Gregorian rule |
| `Calendar.DaysToYearIs` | core/product/productdb/productdb.go:228 | the days before a year are 365 a year and one for each leap year, by the closed count of fourths, centuries and four hundreds |
| `Calendar.DecemberFields` | core/product/productdb/productdb.go:228 | the fields of a known instant late on 1 December 2024 |
| `CursorCodec.InstantRoundTrip` | core/product/productdb/productdb.go:227-243 | formatting an instant with nanoseconds, trailing zeros trimmed, and parsing it, with all the forms the parser takes, gives it back iff its year is 0 to 9999, and otherwise fails |
| `CursorCodec.UuidRoundTrip` | core/widgetaudit/widgetaudit.go:58 | the text of a UUID parses back to the same UUID |
| `CursorCodec.CastOfText` | core/product/productdb/productdb.go:167 | the database casts the text of a UUID, among the other forms it takes, to the same UUID |
| `CursorCodec.CastForms` | core/product/productdb/productdb.go:167 | the database casts the digits without hyphens, and the text in braces, to the same UUID |
| `CursorCodec.UuidTextShape` | core/product/productdb/productdb.go:228 | a UUID is written as 32 lower-case hex digits with hyphens behind the 8th, 12th, 16th and 20th |
| `CursorCodec.DateShape` | core/product/productdb/productdb.go:228 | the date is written with its year, month and day, in that order and at their fixed places |
| `CursorCodec.ClockShape` | core/product/productdb/productdb.go:228 | the time of day is written with hour, minute and second at their places, the fraction behind them and Z at the end |
| `CursorCodec.FractionShape` | core/product/productdb/productdb.go:228 | the fraction is a point and up to nine digits, the last not zero, that stand for the nanoseconds, and is left out when they are zero |
| `CursorCodec.InstantOfParts` | core/product/productdb/productdb.go:238 | a date, a time of day and a zone that read off make the instant, the zone taken off, iff the fields are valid |
| `CursorCodec.ZoneOfOffset` | core/product/productdb/productdb.go:238 | a zone offset is read with its sign, up to 24 hours and 60 minutes |
| `CursorCodec.LenientForms` | core/product/productdb/productdb.go:238 | an hour may have one digit, and a comma may stand for the point |
| `CursorCodec.LongFraction` | core/product/productdb/productdb.go:238 | of a longer fraction the first nine digits count |
| `CursorCodec.DecodeMeans` | core/product/productdb/productdb.go:233-242 | a key without a bar is malformed; with one, the text before the first bar must be a timestamp and the rest is handed on |
| `CursorCodec.CursorRoundTrip` | core/widget/widgetdb/widgetdb.go:307-325 | decode of encode returns the instant and the id text iff the year has four digits, and the malformed-timestamp error otherwise; the key is never empty |
| `TextSearch.PlainOccurs` | core/product/productdb/productdb.go:196-199 | the recursive wildcard matcher on a plain text wrapped in `%` accepts exactly the texts it occurs in |
| `TextSearch.SubstringSearchIffPlain` | core/product/model.go:38 | under every case folding by characters, the filter is the documented case-insensitive substring match on every text iff its text has no `%`, `_` or `\` |
| `TextSearch.SpecialFindsMore` | core/product/productdb/productdb.go:197 | for every text with a special character some text is found that it does not occur in |
| `TextSearch.PercentFindsMore` | core/product/productdb/productdb.go:197 | a search for `50%` finds `500` |
| `TextSearch.BackslashFindsLess` | core/product/productdb/productdb.go:197 | a search for `a\b` does not find `a\b` |
| `Selections.SelectSelects` | core/product/productdb/productdb.go:126-131 | a query returns exactly the rows its condition keeps, strictly in its order, whatever the physical order |
| `Selections.SortedUnique` | core/product/productdb/order.go:21-24 | order and membership determine a listing: two strictly sorted lists of the same rows are equal |
| `OffsetPages.ChunkIsOffsetPage` | core/product/productdb/productdb.go:121-129 | cutting a listing into pages one after another gives page k of OFFSET (k-1)*size FETCH NEXT size |
| `Keyset.LookAheadExact` | core/product/productdb/productdb.go:149-185 | a next key is returned iff a matching row lies strictly past every returned row; the page then has exactly limit rows, and page plus rows behind the key are the whole rest |
| `Keyset.RestBehind` | core/product/productdb/productdb.go:163-167 | the rows strictly below the key of the n-th row of a listing are the listing without its first n rows |
| `Keyset.PageMembers` | core/product/productdb/productdb.go:170-185 | a page holds exactly the matching rows from its boundary down to its next key, newest first |
| `ConcurrentWalk.PageFor` | core/widget/widgetdb/widgetdb.go:239-254 | in an ended walk every key lies in the interval of the page found for it |
| `ConcurrentWalk.ReturnedIffPresentAtItsPage` | core/widget/widgetdb/widgetdb.go:229-272 | over tables that change arbitrarily between fetches, a row is returned iff it was there and matched when the one page whose interval covers its key was fetched, and by no other page |
| `ConcurrentWalk.OutputDescends` | core/widget/widgetdb/widgetdb.go:249-256 | the output of every walk, over any changes, strictly descends in creation time, and in id where that ties |
| `ConcurrentWalk.NoIdTwice` | core/widget/widget.go:202-207 | while no id changes its creation time no id is returned twice, not even in two versions of its row |
| `ConcurrentWalk.StayingIdReturnedOnce` | core/widget/widget.go:202-207 | an id present with a matching row at every fetch of an ended walk is returned exactly once |
| `TokenWalks.TokensFollowKeys` | core/product/productdb/productdb.go:143-186 | a walk by tokens, over any tables, is the walk by the keys they stand for, and all those keys read back |
| `TokenWalks.TokenStayingIdOnce` | core/product/productdb/productdb.go:138-186 | a client that followed the tokens to the empty one has got each id that matched at every request exactly once |
| `TokenWalks.CompleteIff` | core/product/productdb/productdb.go:179-185 | on a table at rest the tokens lead to the empty one iff every key that ends a page but the last reads back, and then to the replies of the walk by keys and no others |
| `CursorTokens.NextKeyLeadsOn` | core/product/productdb/productdb.go:156-168 | a next key is never empty, and leads to the boundary it was written for iff its year has four digits; otherwise it is refused |
| `CursorTokens.OnlyTheEmptyKeyRestarts` | core/product/productdb/productdb.go:156-160 | only the empty key reads as the first page, and any other without a bar is refused |
| `CursorTokens.KeyMeans` | core/product/productdb/productdb.go:156-168 | a key of a timestamp and an id reads as their boundary, or is refused for the part that is malformed |
| `ProductQueries.WhereConditions` | core/product/productdb/productdb.go:188-209 | the conditions, under the bindings made, hold of exactly the rows the non-nil filter fields mean; every placeholder is bound, and no binding is overwritten |
| `ProductQueries.OneMore` | core/product/productdb/productdb.go:217-223 | adding a condition whose names no earlier one uses means the conjunction of both |
| `ProductQueries.KeyConditionMeans` | core/product/productdb/productdb.go:155-168 | with the keyset predicate added the conditions mean filter and lexicographic boundary together, and cannot be evaluated iff the id does not cast |
| `ProductQueries.TrimmedIsPage` | core/product/productdb/productdb.go:179-185 | whatever keeps at most limit rows of a fetch of limit+1 as a prefix, with a next key, of its last row, iff something was cut off, is the page and its next key |
| `ProductQueries.Store.Count` | core/product/productdb/productdb.go:98-110 | counts the rows the filter means |
| `ProductQueries.Store.Query` | core/product/productdb/productdb.go:115-136 | an error iff the field is not one of created_at, name and price; otherwise the page of the listing, at most size rows, all within the filter, ordered by that very field in the direction asked for and by id where it ties |
| `ProductQueries.ListingMeans` | core/product/productdb/order.go:15-31 | under each allowlisted field and direction the listing holds exactly the products within the filter, name and both price bounds, ordered by that field and then by id |
| `ProductQueries.Store.CursorConditions` | core/product/productdb/productdb.go:153-168 | for every key: an error iff the key does not decode, conditions the database refuses iff its id does not cast, and otherwise conditions meaning the matching rows behind the boundary; no binding is overwritten |
| `ProductQueries.Store.QueryByCursor` | core/product/productdb/productdb.go:143-186 | the page behind the boundary the key stands for and the key of the next: at most limit rows, newest first, all within the filter; a key without a bar is an error and the empty key never is |
| `ProductListings.ClauseIsTotal` | core/product/productdb/order.go:21-31 | the id tiebreaker makes each allowlisted column, in either direction, a strict total order of rows with distinct ids |
| `ProductListings.PhysicalOrderIrrelevant` | core/product/productdb/order.go:21-31 | two physical orders of one table give the same listings, counts and cursor replies |
| `ProductListings.OffsetPagesPartition` | core/product/productdb/productdb.go:115-136 | the offset pages, as many as the count fills, join to the listing of every matching row exactly once, as long as the count |
| `ProductListings.DefaultListing` | core/product/model.go:60-61 | the default order of the offset listing is the keyset order |
| `ProductListings.TokensAgreeWithOffsetAndCount` | core/product/productdb/productdb.go:98-186 | on a table at rest the replies up to the empty token are max(1, ceil(count/limit)) in number, join to the filtered listing newest first, and reply k is offset page k in default order |
| `ProductListings.TokensLeadToTheEndIff` | core/product/productdb/productdb.go:156-185 | following tokens on a table at rest reaches the empty token iff every row that ends a page with rows behind it was created in a four-digit year |
| `ProductListings.NameFilterIff` | core/product/model.go:33-42 | a filter by a name selects exactly the products whose name contains it without regard to case, iff the name is plain |
| `ProductHistory.ProductWalkIsStable` | core/product/productdb/productdb.go:138-186 | a client following tokens, its requests met at any moments of any run of creates, updates and deletes, gets products newest first, none twice, and each that matched at every request once |
| `ProductHistory.RunKeepsBirths` | core/product/productdb/productdb.go:38-79 | over every run a product keeps, under its id, the creation time the id was drawn with |
| `ProductHistory.StatementsMean` | core/product/productdb/productdb.go:39-79 | a create adds its row unless the id is taken, an update sets name, price and update time of its row alone, a deleted product is gone and no other |
| `KeyEncoding.EscapeRoundTrip` | internal/app/idempotency/idempotency.go:167-172 | unescaping an escaped part gives it back |
| `KeyEncoding.WhatIsEscaped` | internal/app/idempotency/idempotency.go:169-172 | unreserved characters stay as they are, and the ones that would split or end a path segment are percent-encoded |
| `KeyEncoding.HttpKeyInFull` | internal/app/idempotency/idempotency.go:119-127 | the key of every request in full: the kind, the escaped route, owner and header between slashes |
| `KeyEncoding.BrokerKeyInFull` | internal/app/idempotency/idempotency.go:150 | the key of every delivery in full |
| `KeyEncoding.JoinInjective` | internal/app/idempotency/idempotency.go:167-174 | two part lists make one key iff they are the same list, or one is empty and the other a single empty part |
| `KeyEncoding.JoinParts` | internal/app/idempotency/idempotency.go:169-174 | the parts are overwritten by their escaped forms in place and joined |
| `KeyEncoding.HttpKeysShared` | internal/app/idempotency/idempotency.go:119-127 | two requests share a key iff route and header agree and the callers are the same, or both are anonymous, empty or named `anonymous` |
| `KeyEncoding.AnonymousSharesAKey` | internal/app/idempotency/idempotency.go:38-39 | a principal named `anonymous` shares a key with a caller without a principal |
| `KeyEncoding.BrokerKeysShared` | internal/app/idempotency/idempotency.go:150 | two deliveries share a key iff group, source and id agree |
| `KeyEncoding.HttpKeyIsNoBrokerKey` | internal/app/idempotency/idempotency.go:126-150 | no request and no message ever share a record |
| `IdempotentHttp.RecordedIsWire` | internal/app/idempotency/idempotency.go:93-117 | what is stored is what the client received, whenever that is an encoded response below 500, and nothing otherwise |
| `IdempotentHttp.Middleware.Enter` | internal/app/idempotency/idempotency.go:48-73 | other methods and requests without the header pass through; with a working store a free key is taken, a running one answered 409 and a stored one answered with exactly that response; an outage is answered 503 and any other failure 500 |
| `IdempotentHttp.Middleware.Leave` | internal/app/idempotency/idempotency.go:55-72 | for every handler return and late failure: the record left behind, and the status, type and body the client receives |
| `IdempotentHttp.RunKeepsInv` | internal/app/idempotency/idempotency.go:46-75 | in every run a request in its handler holds its key, and a stored answer given is still the record of its key |
| `IdempotentHttp.OneAtATimeAndOneAnswer` | internal/app/idempotency/idempotency.go:35-45 | from the start, over all interleavings: no key has two requests in their handlers, and all stored answers of a key are identical |
| `IdempotentHttp.StoredIsFinal` | internal/app/idempotency/idempotency.go:35-45 | once a response is stored no later step runs the handler for its key, and every later request that meets a working store gets exactly that response; 503 comes only from a store that is down, 500 only from a faulty one |
| `IdempotentHttp.FreedIff` | internal/app/idempotency/idempotency.go:93-117 | in every reachable state a key is freed iff its holder returns a response that is not stored, or its holder is gone |
| `IdempotentHttp.RunsAreFreesAndRecord` | internal/app/idempotency/idempotency.go:35-44 | in every run from the start the handler ran for a key exactly as often as the key was freed, plus once if it has a record: a second run needs a first that stored nothing |
| `IdempotentHttp.RunningRefuses` | internal/app/idempotency/idempotency.go:62-65 | a request that finds its key running gets 409 and no handler runs |
| `IdempotentHttp.NotStoredRunsAgain` | internal/app/idempotency/idempotency.go:42-44 | an error, a 5xx or a self-written response reaches the client and frees the key, so a retry runs the handler once more |
| `IdempotentHttp.OwnResponseIff` | internal/app/idempotency/idempotency.go:59-72 | the request that ran the handler receives what it returned iff it is not the case that the return is nil and the store failed late |
| `EventPipeline.Recorder.Handle` | core/widgetaudit/widgetaudit.go:57-86 | acked iff the insert went through and id and time are good, and then the row is in the log; discarded iff the id does not parse or the time is missing; no row is overwritten and no other row appears |
| `EventPipeline.Handler.Enter` | internal/app/idempotency/idempotency.go:144-150 | a message without an id goes straight through; with a working store a free key runs the handler, a stored one is acked, a running one requeued; any other store requeues |
| `EventPipeline.Handler.Leave` | internal/app/idempotency/idempotency.go:151-163 | acked iff the handler acked and that was recorded; another verdict is passed on and, unless the store fails first, leaves no record behind; an Ack that could not be recorded is requeued |
| `EventPipeline.AcknowledgeKeeps` | internal/app/idempotency/idempotency.go:157-163 | acking or discarding a message loses no event |
| `EventPipeline.KeyComesFree` | internal/app/idempotency/idempotency.go:141-163 | a record in the way of an unlogged event is of a running call, which logs the event or frees the key in one clean step, or is gone |
| `EventPipeline.StepKeepsInv` | internal/app/idempotency/idempotency.go:144-165 | every step, failures included, keeps the invariant: messages genuine, consumers about to ack have seen the row logged, stored records mean logged rows, nothing lost |
| `EventPipeline.RunKeepsInv` | internal/app/idempotency/idempotency.go:144-165 | the invariant holds after every run of any length |
| `EventPipeline.EventsRecordedOnceAndKept` | core/widgetaudit/widgetaudit.go:52-86 | after every run from the start each committed create has at most one log row, with its own time and payload, its event is a task, in the broker, a dead task or logged, and was never discarded; every other row is foreign |
| `EventPipeline.StoredMeansLogged` | internal/app/idempotency/idempotency.go:136-143 | a stored record of an event means its row was logged, so acking a repeat without running the recorder drops nothing |
| `EventPipeline.AlwaysRecoverable` | internal/app/idempotency/idempotency.go:141-143 | from every reachable state an event the queue has not given up is logged by at most five clean steps: no failure, no crash, no record of a call under way dropped |
| `EventPipeline.WaitingEnds` | internal/app/idempotency/idempotency.go:144-165 | a waiting message with its key free is acked after exactly five clean steps, the recorder having run; a repeat after exactly three, without it |
| `EventPipeline.EveryDeliveryEnds` | internal/app/idempotency/idempotency.go:136-165 | from every reachable state at most eight clean steps leave an event in the broker logged and one copy of its message acked, none discarded |
| `EventPipeline.EventsComeToRest` | core/widgetaudit/widgetaudit.go:52-56 | wherever the failures of a run have left an event the queue has not given up, clean steps bring it to rest: logged, and every copy of its message acked |
| `EventPipeline.InUseIsFaithful` | internal/app/idempotency/idempotency.go:150 | UUID text and the escaped composite key meet what the pipeline's proofs ask of ids and keys |
| `WidgetTable.WritesKeepIndexes` | internal/migrations/0001_init.sql:2-10 | every insert, update and delete that goes through keeps ids and names unique |
| `WidgetTable.UpdateResurrectsNothing` | core/widget/widgetdb/widgetdb.go:116-129 | an update adds no row, changes no other row and no creation time |
| `WidgetTable.BulkKeepsRows` | core/widget/widgetdb/widgetdb.go:164-182 | a bulk statement overwrites no row, leaves every id of its rows present and adds only its own rows |
| `WidgetTable.BulkSucceedsIff` | internal/migrations/0001_init.sql:10 | a bulk statement goes through iff the names of the rows it adds are new to the table and differ from each other |
| `WidgetTable.NoChangeIff` | core/widget/widgetdb/widgetdb.go:164-167 | a bulk statement changes nothing iff all its ids are present |
| `WidgetTable.AttemptBringsIff` | core/widget/widgetdb/widgetdb.go:164-182 | an attempt brings in an absent id iff a statement before the first failure has a row of it |
| `WidgetTable.ReplayAbsorbs` | core/widget/widgetdb/widgetdb.go:164-167 | after an attempt stopped anywhere, running the whole batch ends as it would have on the first table: same rows, same success |
| `WidgetTable.CutIrrelevant` | core/widget/widgetdb/widgetdb.go:178 | however a batch is cut into statements, all go through iff one statement would, to the same table |
| `WidgetStore.FlatRows` | core/widget/widgetdb/widgetdb.go:172-177 | regrouping the flat argument list by five from any row boundary recovers the rows of the batch in order |
| `WidgetStore.StatementsJoin` | core/widget/widgetdb/widgetdb.go:172-178 | every cut at row boundaries joins back to the batch |
| `WidgetStore.Store.Create` | core/widget/widgetdb/widgetdb.go:101-113 | adds just that row if id and name are free, and reports a duplicate if not; any other database error is passed on, applied or not |
| `WidgetStore.Store.Update` | core/widget/widgetdb/widgetdb.go:116-129 | sets name, description and update time of that row alone, keeping its creation time, unless another row has the name; not found iff the id is absent; any other database error is passed on, applied or not |
| `WidgetStore.Store.Delete` | core/widget/widgetdb/widgetdb.go:132-145 | removes just that row, or reports that it is not there; any other database error is passed on, applied or not |
| `WidgetStore.Store.BulkInsert` | core/widget/widgetdb/widgetdb.go:168-182 | the table is that of the statements run before the connection was lost; success iff the batch is empty or every statement went through |
| `WidgetStore.Store.Exec` | core/widget/widgetdb/widgetdb.go:178 | running statements read back from the flat list does what the statements cut from the batch do, stopping at the first failure |
| `WidgetImport.Importer.Schedule` | core/widgetimport/widgetimport.go:84-109 | unavailable while read-only, refused beyond the limit; a one-off is always queued, a named batch iff no task in the queue has the name; the task carries the rows with the ids and the time drawn now |
| `WidgetImport.Importer.Handle` | core/widgetimport/widgetimport.go:114-123 | an undecodable payload is permanent and writes nothing; otherwise no row is overwritten, and done means the whole batch is in, as by one statement, while anything else is retried |
| `WidgetHistory.RunKeepsInv` | core/widgetimport/widgetimport.go:81-103 | in every run of creates, updates, deletes, schedules and import statements ids and names stay unique and every row has the creation time its id was drawn with |
| `WidgetHistory.StepMeans` | core/widget/widgetdb/widgetdb.go:101-182 | what each step does to the table, row by row: the insert, update, delete or bulk statement it stands for |
| `WidgetHistory.CreationTimeNeverChanges` | core/widget/widgetdb/widgetdb.go:116-121 | two moments of one run never show an id with two creation times |
| `WidgetHistory.GoneStaysGone` | core/widget/widget.go:216-241 | a row that is gone stays gone whatever updates were under way, unless an import of it is replayed |
| `WidgetHistory.ImportedStays` | core/widgetimport/widgetimport.go:81-83 | after one statement of one attempt went through, its ids stay present until deleted and their content as drawn until updated, over every interleaving of replays, other batches, creates and updates |
| `WidgetHistory.WholeBatchStays` | core/widgetimport/widgetimport.go:81-83 | once every statement of a batch went through, in one attempt or several and with anything in between, every id of the batch is in the table at the end unless deleted since |
| `WidgetHistory.ReplayUndoesDelete` | core/widget/widgetdb/widgetdb.go:164-167 | replaying an import after a delete re-inserts the row as first drawn |
| `WidgetHistory.BroughtBackIff` | core/widget/widgetdb/widgetdb.go:164-167 | a step brings a gone row back iff it is an import statement with a row of that id and goes through; it is then the row as drawn |
| `WidgetHistory.BackAtTheEndIff` | core/widgetimport/widgetimport.go:81-83 | over a run with no new delete of it, a gone row is back at the end iff some import statement with a row of that id went through |
| `WidgetHistory.AttemptBringsBackIff` | core/widgetimport/widgetimport.go:114-123 | a whole attempt brings a gone row back iff one of its statements before the first failure has it |
| `WidgetHistory.ReplayFailsOnTakenName` | internal/migrations/0001_init.sql:10 | after a batch stopped at its first row, a create taking the name of the second makes every replay fail and change nothing |
| `WidgetHistory.AttemptIsBulkInsert` | core/widgetimport/widgetimport.go:114-123 | an attempt run with nothing in between is the store's bulk insert |
| `WidgetHistory.WidgetWalkIsStable` | core/widget/widget.go:202-207 | a client following tokens, its requests met at any moments of any run of creates, updates, deletes and import replays, gets widgets newest first, none twice, and each that matched at every request once |
| `Outbox.BothOrNeither` | core/widget/widget.go:49-67 | for every sequence of rolled back callback runs and every way the last one ends: the row with exactly one event more (none with the broker off), of the run that committed and with the id, name, description and creation time of the row, or nothing; success means both, a duplicate or a store without tasks means neither |
| `Outbox.SucceedsIff` | core/widget/widget.go:53-54 | a create succeeds iff the first callback run no deadlock cuts short finds id and name free, has tasks wired, and its commit is confirmed; the database changes iff that commit is applied; the duplicate error iff that run, not failing otherwise, finds id or name taken |
| `Outbox.Core.Create` | core/widget/widget.go:112-148 | answers success iff the transaction did, the row then stored as answered and the last event carrying its fields; the duplicate-name error for a taken id or name; counts exactly the successes |
| `Outbox.Core.Insert` | core/widget/widget.go:164-179 | the callback run by run, each on the state rolled back to, does what the transaction is specified to do |
| `Outbox.Core.Update` | core/widget/widget.go:216-241 | the answered row has the id and creation time read, the time of the call, each given field as given and each other as read; the stored row gets that body and update time under its own creation time, no other row changes; not found when it is missing at either statement |
| `Outbox.JoinedIsAll` | core/widget/widgetdb/widgetdb.go:75-80 | an outer transaction that gets through holds every row created in it, no other new one, and in order an event for each with its fields |
| `Outbox.OuterTransaction.WithinTranTasks` | core/widget/widget.go:53-54 | a store over an outer transaction joins it and commits nothing |
| `Outbox.OuterTransaction.Run` | core/widget/widget.go:53-67 | all creates of an outer transaction whose caller passes their errors on become visible together at its end, or none does; what a caller that drops errors commits |
| `Outbox.SwallowingIsSafeIff` | core/widget/widgetdb/widgetdb.go:82-98 | dropping the errors of joined creates is as good as passing them on iff the store has tasks, there is no create, or an INSERT aborts the transaction |
| `Outbox.RacingUpdatesIff` | core/widget/widget.go:216-241 | two updates that both read first, each with its own clock, leave what they would in the order they write iff every field only the first writer sets was to keep its value |
| `Outbox.OtherTurnIff` | core/widget/widget.go:216-241 | they leave what they would in the other order iff the first writer changes nothing of what the last one leaves |
| `Outbox.RenameLost` | core/widget/widget.go:216-241 | a rename raced by a new description is lost |
| `CreatedEvents.TransactionIsCreate` | core/widget/widget.go:164-179 | a create's transaction is, for the pipeline, one step creating its event in the same commit, or no step |
| `CreatedEvents.CreatedWidgetsRecordedOnce` | core/widget/widget.go:162-179 | after every run of transactions, other writes and pipeline steps each created widget has exactly one event, with the id, name, description and creation time of the row committed; it is not lost and has at most one log row, with its envelope's time and its payload |

## Left out

- Users and the widget copies of the pagination code: the three stores differ in columns and filter fields only, so the product store stands for them, and the walks are generic over rows and filters.
- The SDK: transactions, queue, keeper of records, broker, partitions and page tokens are not part of the repository. They are modelled by the contracts its comments and tests state; a page token is taken to be an invertible coding of its key, so the key stands for it.
- IdempotentHttp.StoredIsFinal: does not model the keeper's own expiry of stored responses, because the repository does not state it; after it a key is new again.
- ProductQueries.Store.QueryByCursor: takes a limit of at least one, which the SDK's cursor is said to ensure; with zero the code indexes an empty page.
- ProductQueries.Store.Query: takes pages from one on, as the SDK's page type counts them.
- TextSearch.SubstringSearchIffPlain: takes a case folding that works a character at a time; a locale may fold one character into several.
- CursorCodec.UuidRoundTrip: the recorder's parser is taken on the hyphenated form; the pipeline's theorems hold for every parser that reads back what is written.
- Calendar.ToCivil: keeps nanoseconds; the database rounds stored times to microseconds, so the times it returns are among those covered.
- KeyEncoding.EscapeRoundTrip: takes a Go string as its bytes, one character below 256 each.
- IdempotentHttp.Middleware.Enter: the Retry-After header is not part of the answer.
- EventPipeline.AlwaysRecoverable: lets the keeper drop the record of a call whose consumer is gone, as a lease running out does; backoff and delays are not modelled.
- EventPipeline.EventsRecordedOnceAndKept: a row dropped by retention counts as logged.
- Outbox.Core.Insert: the loop over callback runs belongs to the SDK's transaction helper; it is here because the promise about re-run callbacks is about it.
- Outbox.OuterTransaction.Run: whether the caller passes the errors of its creates on is a parameter; no outer transaction in the repository's own code fixes it.
- CreatedEvents.CreatedWidgetsRecordedOnce: takes the ids of events and of created widgets as new.
- Outbox.Core.Create: the best-effort events on the in-process bus and the audit snapshot are not part of the state.
- WidgetImport.Importer.Handle: the JSON payload is what its decoder makes of it, a batch or nothing; the queue's backoff and dead letters are its verdicts.
- WidgetHistory.RunKeepsInv: takes drawn ids as new, which is what random UUIDs are for.
- REST and gRPC handlers, validation, webhook, translation, metrics, tracing, configuration and wiring: field copying, I/O or one-branch guards.
