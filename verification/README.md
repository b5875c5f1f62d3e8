# HIFLD Next: verified models

Models, in Dafny 4.11, of the parts of the repository whose correctness depends on interleavings, on
ownership, or on several pieces of code agreeing with each other:

- the **tile cache** of the dataset server: a byte-bounded LRU store with a time-to-live, and a
  single-flight protocol that shares one computation between waiting callers, survives cancellation and
  retires a computation nobody waits for;
- the **SQL compiler and policy**: lexical resolution of table names, the two binders that replace source
  aliases, the quoting of names and texts, and the covering-box filter that prunes map tiles;
- the **worker pool** and the **HTTP admission** in front of it: slots that are returned or replaced, a
  reference-counted lock per query, a quota per query identity under a global bound;
- **catalog replacement** in two places: leased repositories in the web application, and snapshots, files
  and conditional refreshes in the feature server;
- **result serialization**: a size that is predicted without printing, pages that fill a byte budget, and
  the paging that puts a result together again;
- the **codecs** of feature identifiers and query tokens, and the **category registry** of a map layer.

`dafny verify dfyconfig.toml` checks the whole project.

## How it is built

Each concurrent part comes in two layers. The lower layer holds the critical sections as functions on
values, a transition system whose events are the stretches of the source between two suspensions, and
the proofs: an invariant that every event keeps, and theorems about every run. A function that suspends
in the middle of a `try` statement (`SlotExchange`, `ConnectedTile`) is a state machine of its own, with a
program point for each await and a cancellation possible at each. The upper layer is a class
with the source's own fields, updated in place; the contract of each method says which fields change and
equates them with the functions of the lower layer.

| part | values and proofs | code in place |
|---|---|---|
| tile cache | `TileStore`, `TileFlight`, `TileSystem` | `TileCache` |
| worker pool | `SlotExchange`, `PoolProtocol` | `WorkerPool` |
| HTTP admission | `ConnectedTile`, `LimiterProtocol` | `ConcurrencyLimiter` |
| leased catalog | `CatalogProtocol` | `CatalogLifecycle` |
| snapshots and fetcher | `SnapshotProtocol` | `SnapshotRegistry` |
| pages | `Json`, `JsonReading`, `Serialization`, `ValueReading`, `Paging`, `PageReading` | methods of `Serialization` and `Paging` |
| pruning | `Pruning`, `PruningSoundness` | `Pruning.CoveringFilter` |
| categories | `Categories` | methods of `Categories` |

The SQL modules (`Sql`, `SqlBinding`, `SqlMeaning`, `SqlNames`, `SqlRewriting`, `SqlQuoting`) and the
codecs (`Text`, `Base64`, `Base64Bits`, `FeatureIds`, `QueryTokens`) are functions and lemmas, like their
sources. `Wrappers`, `Sequences` and `Counting` hold what the others share.

Things outside the models are parameters: what a query engine does with clauses, relations and recursion
(`Sql.World`), how expressions are evaluated and geometries reprojected (`Pruning.Scene`), digests,
compression and the payload schema (`QueryTokens.Library`), HTTP answers and URL parsing
(`SnapshotProtocol.Library`), and how the script engine prints, parses and lowers (`Categories.Engine`).

## Five findings

- **Pruning is wrong for some selections.** `covering_filter` takes any unqualified star for a plain
  reference to the geometry column, also `* EXCLUDE (geom)` next to `f(geom) AS geom`, and `* REPLACE`. It
  also takes a column's name for the column when the same select list gives that name to something else,
  as in `f(wkt) AS shape, shape AS geom`: ClickHouse's documentation says that such a name stands for the
  expression (`prefer_column_name_to_alias` is off by default, and nothing here sets it). And it takes an
  element of a tuple column, written `t.geom`, for the column `geom`. In these cases it filters by the boxes
  of a column that is not drawn. `PruningSoundness.ExcludedStarIsPrunedWrongly`,
  `PruningSoundness.ShadowedColumnIsPrunedWrongly` and `PruningSoundness.TupleElementIsPrunedWrongly` give
  the statements, the row and the empty tile;
  `PruningSoundness.PruningSoundExactlyWhen` says for which statements pruning is right for all data, and
  `PruningSoundness.PlainSelectionsAreSound` gives a test a caller can make on the statement.
- **Rewriting by name loses bare names.** `_rewrite_source_aliases` replaces the name of a table node and
  leaves its alias alone, so a source written without an alias becomes visible as its internal name, and a
  column qualified by the source's own name no longer resolves. `SqlRewriting.RewriteLosesBareNames` gives
  the query; `SqlRewriting.RewritePreservesExactlyWhen` gives the exact condition, which counts only names
  that columns are qualified by, wherever that is: `SELECT * FROM a` is kept (`SqlRewriting.BareStarIsKept`),
  `SELECT a.id FROM a` is not (`SqlRewriting.QualifiedNameIsLost`), and neither is `SELECT (WITH c AS (SELECT
  a.id AS x) SELECT max(x) FROM c) FROM a`, where a common table expression of a subquery reaches out for the
  name (`SqlRewriting.NameIsLostThroughCte`). The compiler of `query_engine/sql.py` does not have this problem
  (`SqlMeaning.CompilePreservesMeaning`).
- **Failures are shared too, also with callers that come later.** The documentation of the tile cache
  speaks of sharing successful computations. The code hands a failure to every caller that awaits the
  computation, and a caller that arrives after the failure, but before every waiter has resumed, joins the
  failed computation and is given its failure at once (`TileSystem.LateCallerGetsOldFailure` is such a run). A
  failure is older than the lookup of the caller it reaches if and only if the record found there is not
  retiring and its task has failed (`TileSystem.OldFailureExactlyWhen`); whoever finds one ends with it in the
  same stretch (`TileSystem.FoundFailureIsHandedOn`). What never happens is that a failure is stored
  (`TileSystem.FailuresAreNeverServed`).
- **Slots can be lost.** When a replacement worker does not start, nothing takes its place in the queue; and
  an exception of sending, polling or receiving that neither handler names, such as one of unpickling a
  response, leaves the slot neither returned nor replaced. `PoolProtocol.FailedReplacementLosesSlot` and
  `PoolProtocol.EscapedExceptionLosesSlot` are runs that leave a pool of one worker without any, after which
  nobody gets one again (`PoolProtocol.EmptyPoolServesNobody`). `PoolProtocol.SlotsAreKeptExactlyWhen` says
  that these are the only two ways, each costing one slot.
- **Identities have several identifiers.** Decoding a feature identifier skips foreign characters, ignores
  spare bits, takes leading zeros and takes decimal digits of other scripts, so every identity has further
  identifiers that decode to it (`FeatureIds.LeadingZeroIsLost`, `FeatureIds.ScriptIsLost`; the row number 3
  may also be written as Arabic three, `FeatureIds.ArabicThreeIsLost`).
  `FeatureIds.EncodedExactlyWhenCanonical` says which accepted identifiers are the encoding of what they
  decode to, by the characters of their parts. A digit without a decimal value, such as a superscript two,
  passes the test for digits and raises a plain `ValueError` instead of a `FeatureIdError`.

## Model

| member | source | states |
|---|---|---|
| TileStore.EvictKeepsLongestFittingSuffix | dataset-mcp/app/query/tile_cache.py:205-207 | eviction keeps the longest most recent suffix of the list that fits both the byte and the entry bound |
| TileStore.PutKeepsLongestSuffix | dataset-mcp/app/query/tile_cache.py:192-207 | storing keeps keys distinct and both bounds; an oversized tile changes nothing, otherwise the kept slots are the longest recent suffix that fits and include the new one |
| TileStore.PutMembers | dataset-mcp/app/query/tile_cache.py:192-207 | storing brings in no slot but the new one, with its expiry one time-to-live after now |
| TileStore.TouchKeepsStore | dataset-mcp/app/query/tile_cache.py:130-138 | a lookup keeps both bounds and hits if and only if a slot of the key has not expired |
| TileStore.TouchMembers | dataset-mcp/app/query/tile_cache.py:130-138 | a hit loses no slot; a miss loses at most the expired slot of its own key |
| TileStore.TouchKeepsUseOrder | dataset-mcp/app/query/tile_cache.py:130-138 | the list is in order of last access after every lookup |
| TileStore.PutKeepsUseOrder | dataset-mcp/app/query/tile_cache.py:196-207 | the list is in order of last access after every store, which counts as an access |
| TileStore.PutThenTouch | dataset-mcp/app/query/tile_cache.py:130-207 | a tile that fits and was stored is what a lookup of its key finds until its time-to-live is over |
| TileCache.TileCache.Cached | dataset-mcp/app/query/tile_cache.py:130-138 | the lookup on the mutable store does what `Touch` says, keeps the byte counter exact and the list in access order |
| TileCache.TileCache.Store | dataset-mcp/app/query/tile_cache.py:192-207 | the eviction loop on the mutable store computes exactly what `Put` says, with the byte counter exact |
| TileCache.TileCache.RemoveEntry | dataset-mcp/app/query/tile_cache.py:227-229 | removing an entry takes its bytes off the counter and nothing else |
| TileCache.TileCache.EnterTable | dataset-mcp/app/query/tile_cache.py:110-121 | the table after a lookup that missed: refused, blocked on a retirement, joined or started, with the waiter counted on the shared record |
| TileCache.TileCache.Enter | dataset-mcp/app/query/tile_cache.py:106-121 | the whole critical section of a lookup: store first, then the table, which a hit leaves alone |
| TileCache.TileCache.Release | dataset-mcp/app/query/tile_cache.py:150-163 | a waiter leaving decrements its record; the last one removes a finished record or marks a running one as retiring |
| TileCache.TileCache.Retire | dataset-mcp/app/query/tile_cache.py:184-188 | the end of a retirement removes the record only if it is still the one in the table |
| TileFlight.ReleaseNeverMismatches | dataset-mcp/app/query/tile_cache.py:153-156 | in every state of the invariant the identity test of a release succeeds, on a record with a waiter and not retiring |
| TileFlight.LastWaiterIsAlone | dataset-mcp/app/query/tile_cache.py:156-163 | when the count reaches its last waiter, no other caller is suspended on the record |
| TileFlight.EnteringSharesOrStarts | dataset-mcp/app/query/tile_cache.py:110-121 | a caller shares its key's computation if one is recorded, waits if that one is retiring, starts one only if there is none, and is refused only when the table is full of other keys |
| TileFlight.EnteringKeepsInv | dataset-mcp/app/query/tile_cache.py:110-121 | entering keeps the invariant: running computations are recorded, waiters equal suspended callers, retiring records have none, no record is orphaned |
| TileFlight.LeavingKeepsInv | dataset-mcp/app/query/tile_cache.py:150-163 | releasing a waiter keeps the invariant, also when it starts a retirement |
| TileFlight.RetiringKeepsInv | dataset-mcp/app/query/tile_cache.py:177-190 | ending a retirement keeps the invariant: the record leaves the table only after its task is done and unwaited |
| TileFlight.SingleFlight | dataset-mcp/app/query/tile_cache.py:110-116 | the invariant allows one running computation per key and at most `max_in_flight` in all |
| TileFlight.NobodyIsStranded | dataset-mcp/app/query/tile_cache.py:117-123 | every suspended caller waits for something that has happened, can happen now, or still runs |
| TileSystem.StepKeepsInv | dataset-mcp/app/query/tile_cache.py:99-207 | every event (arrival, wake-up, finish, failure, resumption, cancellation, end of retirement or draining, clock) keeps store, table and provenance of tiles consistent |
| TileSystem.SingleFlightOverRuns | dataset-mcp/app/query/tile_cache.py:99-128 | over every run no key has two running computations and no more than the allowed number run |
| TileSystem.RefinesDirectComputation | dataset-mcp/app/query/tile_cache.py:99-148 | over every run, if computations return f of their key, every normal return is f of its key |
| TileSystem.ResumedWithOutcome | dataset-mcp/app/query/tile_cache.py:125-128 | in every state of the invariant a caller that awaits a finished computation ends, when it is resumed and for good, with that computation's tile or with its failure |
| TileSystem.WaiterGetsTile | dataset-mcp/app/query/tile_cache.py:125-148 | when a computation returns a tile, each caller that awaits it can be resumed and is returned that tile |
| TileSystem.FinishedTileIsServed | dataset-mcp/app/query/tile_cache.py:140-148 | a tile that fits is stored when its computation returns it, and answers a lookup of its key at any time within its time-to-live |
| TileSystem.LiveTileIsServed | dataset-mcp/app/query/tile_cache.py:105-109 | a lookup, on arrival or after a retirement, that finds an entry which has not expired returns its tile at once and starts nothing |
| TileSystem.FoundOutcomeIsHandedOn | dataset-mcp/app/query/tile_cache.py:110-128 | a lookup that misses and finds a finished, not retiring computation ends in its own stretch, and for good, as the computation did |
| TileSystem.CancelledExactlyWhen | dataset-mcp/app/query/tile_cache.py:117-175 | over every run a caller ends with a cancellation, or is cleaning up after one, if and only if it was cancelled |
| TileSystem.RetirementFrees | dataset-mcp/app/query/tile_cache.py:177-190 | over every run a retirement is over if and only if it ended; then its computation is done and its record gone, callers blocked on it can look again, and the one that drained it ends; the clock shows the time that has passed |
| TileSystem.FailuresAreNeverServed | dataset-mcp/app/query/tile_cache.py:130-148 | over every run, only successful computations contribute entries, and every hit was stored less than a time-to-live ago |
| TileSystem.OldFailureExactlyWhen | dataset-mcp/app/query/tile_cache.py:110-128 | over every run after a lookup that missed, a failure the caller ends with is older than the lookup if and only if the record it found was not retiring and its task had failed |
| TileSystem.FoundFailureIsHandedOn | dataset-mcp/app/query/tile_cache.py:117-128 | over every run a caller that finds a failed computation ends with its failure in the stretch of its lookup, and for good |
| TileSystem.LateCallerGetsOldFailure | dataset-mcp/app/query/tile_cache.py:110-128 | a concrete run in which a caller that arrives after a failure is given that failure before the first waiter has resumed |
| TileSystem.DrainerOutlivesComputation | dataset-mcp/app/query/tile_cache.py:164-190 | the last cancelled waiter, however often cancelled again, and callers blocked on a retirement return only when the computation is over and its record gone; a blocked caller may be cancelled |
| SqlBinding.BindersAgree | dataset-mcp/query_worker/runtime.py:81-96 | on every accepted query the name-based binder replaces exactly the table nodes that lexical resolution takes for sources |
| SqlNames.FoldAgreesExactlyWhen | dataset-mcp/app/query/sql_policy.py:223-225 | for ASCII: two names are folded alike if and only if they have the same length and agree at every place up to the case of a letter |
| SqlNames.CaseOfSourcesIsIgnored | dataset-mcp/app/query/sql_policy.py:223-240 | of two queries that differ only in the case in which sources with an alias are written, one is accepted if and only if the other is, and compiler and worker make the same query of both |
| SqlNames.CaseKeepsMeaning | dataset-mcp/query_engine/sql.py:206-211 | two such queries mean the same when each alias is bound to its source |
| SqlNames.SourceIsFound | dataset-mcp/query_engine/sql.py:206-211 | `SELECT .. FROM name` is accepted if and only if the name is an alias up to case, and then the compiled query reads exactly that alias's source |
| SqlNames.RoadsIsFound | dataset-mcp/query_engine/sql.py:206-211 | `FROM Roads` under the alias `roads` is accepted, and the compiled query reads the source bound to it |
| SqlNames.CteIsVisibleBehind | dataset-mcp/app/query/sql_policy.py:225-240 | a query behind a common table expression may read it by its own name; any other name must be an alias |
| SqlNames.SelfReferenceExactlyWhen | dataset-mcp/app/query/sql_policy.py:233-240 | a set operation that reads the common table expression it defines is accepted if and only if that is RECURSIVE, and a plain SELECT that does never |
| SqlNames.CteStaysInside | dataset-mcp/app/query/sql_policy.py:233-240 | the name of a subquery's common table expression means nothing outside of it |
| SqlNames.RefusedNames | dataset-mcp/app/query/sql_policy.py:223-240 | qualified names, table functions and path relations are refused, and so is a common table expression named like an alias |
| SqlMeaning.CompilePreservesMeaning | dataset-mcp/query_engine/sql.py:206-246 | in terms of folded names (`SqlNames` says which names those are): the compiled query, evaluated with no alias bound, means what the accepted query means with each alias bound to its source, under lexical, recursive and shadowed CTEs |
| SqlMeaning.AcceptedReadsOnlyAliases | dataset-mcp/app/query/sql_policy.py:233-240 | for queries without semi- and anti-joins and without repeated visible names in one scope: changing every relation of the engine's own changes the meaning of no accepted query |
| SqlRewriting.RewritePreservesMeaning | dataset-mcp/query_worker/runtime.py:81-96 | a query without a renamed source that is looked up by its own name means the same after the worker's rewriting, in every world |
| SqlRewriting.RewritePreservesExactlyWhen | dataset-mcp/query_worker/runtime.py:81-96 | the rewriting preserves the meaning in all worlds, with given names that clauses qualify columns by, if and only if no source without an alias, under a name other than its view's, is looked up by its own name where it is visible: by its query, correlated subqueries, later derived tables, and common table expressions of any of these |
| SqlRewriting.RewriteLosesBareNames | dataset-mcp/query_worker/runtime.py:93-95 | a concrete accepted query that the rewriting breaks and the compiler does not |
| SqlRewriting.QualifiedNameIsLost | dataset-mcp/query_worker/runtime.py:93-95 | `SELECT a.id FROM a` loses its meaning in some world |
| SqlRewriting.NameIsLostThroughCte | dataset-mcp/query_worker/runtime.py:93-95 | a query whose only use of the name is in a common table expression of a subquery loses its meaning in some world |
| SqlRewriting.BareStarIsKept | dataset-mcp/query_worker/runtime.py:93-95 | `SELECT * FROM a` keeps its meaning in every world |
| SqlQuoting.LiteralReadsBack | dataset-mcp/query_engine/sql.py:29-30 | a quoted text, whatever it contains, is read back as itself and leaves the rest of the statement alone |
| SqlQuoting.IdentifierReadsBack | dataset-mcp/query_engine/sql.py:23-26 | an identifier is refused if and only if it has a backslash or control character, and is otherwise read back as its name |
| Pruning.CoveringFilter | dataset-mcp/query_engine/pruning.py:21-61 | the guards and the projection loop issue a prune if and only if `Pruning.Prunes` holds of it: one plain SELECT over one table, whose last selecting projection names the column, the first field of that name with a CRS and a covering, and the transformed bounds of that CRS from west to east |
| Pruning.PrunesExactlyWhen | dataset-mcp/query_engine/pruning.py:21-61 | the decision is a prune if and only if, by quantifiers over projections and fields, the statement selects the geometry from a covered column and the bounds are those of its own CRS; there is at most one |
| Pruning.OverlapsExactlyWhen | dataset-mcp/query_engine/pruning.py:66-74 | the emitted predicate holds of two boxes if and only if they have a point in common |
| PruningSoundness.PruningPreservesTiles | dataset-mcp/query_engine/sql.py:222-224 | filtering the scan of an eligible statement leaves the tile, as a sequence of rows, unchanged when the drawn column is the pruned one |
| PruningSoundness.PruningSoundExactlyWhen | dataset-mcp/query_engine/pruning.py:49-57 | for an eligible statement with one output of the geometry's name, names resolved to the expressions of the select list first, pruning is right for all data if and only if that output is a plain reference to the pruned column |
| PruningSoundness.PlainSelectionsAreSound | dataset-mcp/query_engine/pruning.py:48-57 | the decision is right whenever no unqualified star excludes or replaces the geometry's name, the select list gives the name of the column it takes for the geometry to nothing else, and the geometry is no element of a tuple column |
| PruningSoundness.ExcludedStarIsPrunedWrongly | dataset-mcp/query_engine/pruning.py:52-53 | a concrete statement for which the filter is chosen, with a consistent scene of one row: the row is drawn unpruned and the tile is empty pruned |
| PruningSoundness.ShadowedColumnIsPrunedWrongly | dataset-mcp/query_engine/pruning.py:53-55 | the same for a statement without a star, whose select list gives the name of a covered column to an expression |
| PruningSoundness.TupleElementIsPrunedWrongly | dataset-mcp/query_engine/pruning.py:53-55 | the same for a statement that selects an element of a tuple column, named like a covered column |
| PruningSoundness.LimitMustBeExcluded | dataset-mcp/query_engine/pruning.py:33-43 | a concrete scene of two rows in which, with LIMIT 1, the tile is empty unpruned, and pruned draws a row that the statement does not return |
| PruningSoundness.OffsetMustBeExcluded | dataset-mcp/query_engine/pruning.py:33-43 | with OFFSET 1 over the same rows the tile draws one row unpruned and none pruned |
| PruningSoundness.WindowMustBeExcluded | dataset-mcp/query_engine/pruning.py:42-44 | with row_number() over the same rows the drawn row is numbered 2 unpruned and 1 pruned |
| PoolProtocol.StepKeepsAdmissions | dataset-mcp/query_worker/pool.py:222-249 | every event keeps: an active request's admission is the one in the table, references count its active requests, the lock has one holder when locked |
| PoolProtocol.LeaveKeepsOthers | dataset-mcp/query_worker/pool.py:244-249 | leaving deletes an admission only when no other request refers to it, so the lock never splits |
| PoolProtocol.OneSlotPerQuery | dataset-mcp/query_worker/pool.py:220-231 | two requests of one query never hold the lock, a slot or a replacement at the same time |
| PoolProtocol.StepKeepsSlotCount | dataset-mcp/query_worker/pool.py:197-306 | available, busy, replacing and lost slots always add up to `worker_count`, also between the arrival of a new worker in the queue and the resumption of the request that waits for it |
| PoolProtocol.StepKeepsPlaces | dataset-mcp/query_worker/pool.py:197-306 | every event keeps live slots distinct, in one place, fit to serve, and retired ones out of service; a new worker may be taken before the replaced request resumes |
| SlotExchange.ReturnedOrReplaced | dataset-mcp/query_worker/pool.py:251-306 | over every run of a call on its slot, with breaks, timeouts, invalid answers, crashes of the replacement, exceptions that no handler names and cancellations at every await: once it has left, the slot was returned once or one replacement task was created and is over, never both, and neither if and only if an exception escaped; it was returned if and only if a usable answer, not fatal, came from a slot that may serve on |
| SlotExchange.LeavesExactlyWhen | dataset-mcp/query_worker/pool.py:251-306 | over every run a call that is over returned the response if and only if a valid one was received and no replacement crashed; it raised if and only if it was cancelled while talking, an exception escaped or a replacement crashed; otherwise it returned a failure |
| SlotExchange.GetsThrough | dataset-mcp/query_worker/pool.py:251-306 | over every run a call takes at most seven inputs besides cancellations, and until it is over one can come |
| PoolProtocol.PoolIsSafe | dataset-mcp/query_worker/pool.py:118-306 | over every run, failed replacements and escaped exceptions included, slots are accounted for, available ones have served fewer than the recycling limit and are not retired, each query occupies at most one slot, and every request that had a slot returned it or had it replaced, once, unless an exception escaped from it |
| PoolProtocol.FinishedExactlyAs | dataset-mcp/query_worker/pool.py:202-306 | over every run of the pool a finished request that had a worker returned the response, raised or returned a failure exactly as the inputs of its own exchange say, whatever the other requests did; one that had none exchanged nothing |
| PoolProtocol.GaveUpExactlyWhen | dataset-mcp/query_worker/pool.py:202-249 | over every run a request ended without a worker if and only if it gave up, and got a worker if and only if it took one |
| PoolProtocol.SlotsAreKeptExactlyWhen | dataset-mcp/query_worker/pool.py:197-306 | over every run the pool has one slot less for each failed replacement and each escaped exception, and keeps them all if and only if there was neither |
| PoolProtocol.FailedReplacementLosesSlot | dataset-mcp/query_worker/pool.py:197-200 | a concrete run of a pool of one worker that breaks and whose replacement fails: no slot is left |
| PoolProtocol.EscapedExceptionLosesSlot | dataset-mcp/query_worker/pool.py:271-289 | a concrete run of a pool of one worker whose response raises what no handler names: no slot is left |
| PoolProtocol.EmptyPoolServesNobody | dataset-mcp/query_worker/pool.py:228-249 | over every run from a pool without slots no request gets a worker; those waiting can only give up |
| WorkerPool.WorkerPool.SetDefault | dataset-mcp/query_worker/pool.py:223 | the admission of a query is made once and then shared |
| WorkerPool.WorkerPool.Refer | dataset-mcp/query_worker/pool.py:222-224 | the admissions after a request referred to its query, which shares one object with all others of the query |
| WorkerPool.WorkerPool.Leave | dataset-mcp/query_worker/pool.py:244-249 | the admissions after a request left: lock released if it was taken, admission deleted at zero |
| WorkerPool.WorkerPool.Take | dataset-mcp/query_worker/pool.py:231 | the slot available longest is taken off the queue |
| WorkerPool.WorkerPool.Answered | dataset-mcp/query_worker/pool.py:297-305 | an answer counts against the slot, which goes back to the end of the queue unless it is recycled |
| WorkerPool.WorkerPool.Respond | dataset-mcp/query_worker/pool.py:290-306 | the stretch after a response: an invalid or fatal one, or one of a worn slot, creates the replacement; any other puts the slot back and ends the call |
| WorkerPool.WorkerPool.Retire | dataset-mcp/query_worker/pool.py:179-181 | retiring takes a slot off the live workers and leaves the others |
| WorkerPool.WorkerPool.ExecuteSlot | dataset-mcp/query_worker/pool.py:271-306 | each stretch of a call between two awaits moves it as `Next` says; the queue grows by the slot exactly when the call returns it, a slot is returned or replaced at most once in all, and a cancellation while waiting for the replacement changes nothing |
| WorkerPool.WorkerPool.Spawn | dataset-mcp/query_worker/pool.py:197-200 | a replacement joins the live workers and the queue under a new number |
| ConnectedTile.ReturnsAfterBothEnded | dataset-mcp/app/http/disconnect.py:23-39 | over every run of a tied request, whichever task ends first and wherever and however often it is cancelled: it returns only after handler and watcher have ended, and while it cleans up each that runs has been asked to stop |
| ConnectedTile.StoppedForAReason | dataset-mcp/app/http/disconnect.py:25-36 | over every run a handler is asked to stop only after the watcher ended or the request was cancelled |
| ConnectedTile.LeavesExactlyWhen | dataset-mcp/app/http/disconnect.py:25-39 | over every run a call that is over was interrupted if and only if it was cancelled anywhere; otherwise it came to what its handler came to if and only if that had ended when the wait returned, and else returned after a disconnect |
| ConnectedTile.GetsThrough | dataset-mcp/app/http/disconnect.py:23-39 | over every run the call takes at most five stretches besides cancellations, and until it is over one can go on |
| LimiterProtocol.StepKeepsInv | dataset-mcp/app/http_app.py:53-92 | every event keeps: permits in use equal the requests under way per lane and per identity, counts are positive and within the quotas, and every tied request is at a sound point of its connection |
| LimiterProtocol.NothingIsHeldUp | dataset-mcp/app/http_app.py:83-90 | whatever happens to a request under way, its permit is counted and can be given back |
| LimiterProtocol.OnlyDeparturesRelease | dataset-mcp/app/http_app.py:79-92 | over every run permits go down only when a request ends, by exactly its own, and then neither its handler nor its watcher runs |
| LimiterProtocol.ReleasedExactlyOnce | dataset-mcp/app/http_app.py:79-92 | over every run a request gives its permit back exactly once if it is over and never before, and from then on neither its handler nor its watcher runs |
| LimiterProtocol.OverIsFinal | dataset-mcp/app/http_app.py:83-90 | a request that departed takes part in no later event, so its permit is released once |
| LimiterProtocol.AdmittedExactlyWhen | dataset-mcp/app/http_app.py:53-83 | over every run a request is admitted if and only if those under way leave room: eight times the maximum of tiles and the maximum of its identity, or the maximum of queries; it is served at once, tied to its connection exactly if it is a tile fetched with GET; a refused one never begins |
| LimiterProtocol.ServedForItself | dataset-mcp/app/http_app.py:79-92 | over every run an admitted request stands where its own events have led: served directly, it is over if and only if its handler ended; tied, its connection is the run of that connection alone |
| LimiterProtocol.RefusedOnlyUnderEightOthers | dataset-mcp/app/http_app.py:57-61 | over every run an identity with no tile in flight is refused only while eight other identities have tiles in flight |
| LimiterProtocol.IdentitiesShareAllPermits | dataset-mcp/app/http_app.py:76-90 | over every run the counts of all identities add up to the tile permits in use |
| LimiterProtocol.HandlersStayWithinQuota | dataset-mcp/app/http_app.py:43-51 | over every run no identity has more running handlers than permits, or more permits than the quota; the global bounds hold |
| ConcurrencyLimiter.ConcurrencyLimiter.Enter | dataset-mcp/app/http_app.py:54-77 | admission fails exactly when the lane is full, and otherwise takes one permit of it |
| ConcurrencyLimiter.ConcurrencyLimiter.Exit | dataset-mcp/app/http_app.py:83-90 | the permit is given back, and an identity without tiles is forgotten |
| CatalogProtocol.StepKeepsInv | webapp/src/lib/catalog-repository.ts:662-719 | every event keeps: leases count reads, a repository is open while current or retired and closed once from then on, reads and URL belong to one installation |
| CatalogProtocol.LeasesAreSafe | webapp/src/lib/catalog-repository.ts:662-719 | over every run a repository is open if and only if it is current or read, and otherwise closed exactly once |
| CatalogProtocol.ClosedWhenReleased | webapp/src/lib/catalog-repository.ts:674-680 | a repository is closed by exactly two events: being superseded while unread, or the end of its last read once superseded |
| CatalogProtocol.ReadsSeeOneInstallation | webapp/src/lib/catalog-repository.ts:665-672 | over every run each read was given repository, URL and generation of one and the same refresh |
| CatalogProtocol.OnlyInstallationsReplace | webapp/src/lib/catalog-repository.ts:715-718 | a refresh that fails or finds nothing new leaves everything readers see as it was, and only a failure sets the error |
| CatalogProtocol.InstallationsDiffer | webapp/src/lib/catalog-repository.ts:683-696 | because refreshes are shared, the fingerprint compared still stands when the candidate is installed: successive installations differ |
| CatalogProtocol.StatusFollowsEvents | webapp/src/lib/catalog-repository.ts:642-718 | over every run fingerprint, time of the last success, error, and what a read that starts now is given are those of the last installation and failure among the events |
| CatalogProtocol.RefreshGetsThrough | webapp/src/lib/catalog-repository.ts:683-718 | a refresh called while none is under way, with any reads and calls in between, ends without replacing if the source's fingerprint is served already, and otherwise installs the candidate with the fingerprint and URL that the source gave |
| CatalogLifecycle.CatalogLifecycle.StartRead | webapp/src/lib/catalog-repository.ts:665-670 | a read is given what is served (repository, its URL and generation) and leases it; what is served and which repositories are open stay |
| CatalogLifecycle.CatalogLifecycle.EndRead | webapp/src/lib/catalog-repository.ts:673-680 | the end of a read gives the lease back and closes its repository exactly when that was the last lease of a retired one, which then alone leaves the open repositories; what is served stays |
| CatalogLifecycle.CatalogLifecycle.CandidateOpens | webapp/src/lib/catalog-repository.ts:703-714 | the candidate is what reads are served from then on, with the URL of its refresh; the previous repository is closed and no longer open if unread, and retired otherwise |
| SnapshotProtocol.StepKeepsInv | feature-server/app/catalog/registry.py:39-73 | every event of requests and of a refresh keeps references, retirement, files on disk, the checks passed and the fetcher's memory consistent |
| SnapshotProtocol.FilesAreConserved | feature-server/app/catalog/registry.py:39-73 | over every run the files between refreshes are exactly those of the current snapshot and of retired ones still held; a held snapshot's file is there |
| SnapshotProtocol.NothingIsLeftBehind | feature-server/app/catalog/registry.py:47-59 | over every run, after close and the last release no file is left |
| SnapshotProtocol.FailedRefreshIsUndone | feature-server/app/catalog/fetcher.py:146-165 | a refresh that ends without activating restores the fetcher but for its error, keeps every snapshot, and leaves no candidate file; it ends without an error if and only if a server said that nothing changed |
| SnapshotProtocol.OnlyActivationsChange | feature-server/app/catalog/fetcher.py:79-165 | over every run without an activation, however requests interleave, etag, generation, URL and current snapshot stay |
| SnapshotProtocol.GenerationsAdvance | feature-server/app/catalog/fetcher.py:139-159 | over every run activations of different revisions in a row have different generations; the registry serves the last activation, and the fetcher remembers it, but for the stretch between replacing and recording, when it remembers the one before |
| SnapshotProtocol.PassesExactlyWhenSound | feature-server/app/catalog/fetcher.py:89-146 | the ordered checks let a candidate through if and only if its bytes have the announced length and digest, it belongs to the release its pointer selects, and it does not reuse the active generation for another revision |
| SnapshotProtocol.OnlySoundExchangesAreServed | feature-server/app/catalog/fetcher.py:89-159 | over every run, with requests interleaved, every activation rests on an exchange that was sound for the fetcher of its time, and has the revision that exchange names; whatever is current has generation and path of one of them, and the URL in use is the one the last came from |
| SnapshotRegistry.SnapshotRegistry.Replace | feature-server/app/catalog/registry.py:39-59 | the previous snapshot is retired, and its file deleted exactly when it is owned and nobody holds it; with none it is the registry's part of shutdown |
| SnapshotRegistry.SnapshotRegistry.Acquire | feature-server/app/catalog/registry.py:61-69 | a request counts itself on the current snapshot, or finds none |
| SnapshotRegistry.SnapshotRegistry.Release | feature-server/app/catalog/registry.py:70-73 | a request's end uncounts it on the snapshot it took, and deletes the file of a retired one at zero |
| SnapshotRegistry.CatalogFetcher.Refresh | feature-server/app/catalog/fetcher.py:79-165 | fetcher, result, registry and disk after one refresh, for every answer, check, write, opening and activation outcome |
| SnapshotRegistry.ActivatedExactlyWhenSound | feature-server/app/catalog/fetcher.py:89-146 | a refresh that is not interrupted activates its candidate if and only if its exchange is sound and the candidate can be stored, opened and built |
| SnapshotRegistry.RefreshMeans | feature-server/app/catalog/fetcher.py:79-165 | a refresh that is not interrupted finds nothing new exactly when a server says so about the known revision, has an error exactly when it fails and then changes nothing else, and after an activation remembers the exchange's own revision, generation and address |
| SnapshotRegistry.FailureHasCause | feature-server/app/catalog/fetcher.py:92-158 | a refresh that fails records an error whose cause it met: a missing or unsuccessful answer, a pointer that selects nothing, announced metadata that is missing or that the content does not have, a candidate that cannot be stored or opened, another or a reused generation, a failed activation |
| SnapshotRegistry.StagesMakeARefresh | feature-server/app/catalog/fetcher.py:79-165 | the stages of the protocol, run without a request in between, give the whole server that one refresh gives: fetcher, snapshots, current, files and activations |
| Json.SizeIsPrintedBytes | dataset-mcp/app/query/serialization.py:35-36 | the size of a value, added up over its parts, is the number of UTF-8 bytes of its compact printing |
| JsonReading.PrintReadsBack | dataset-mcp/app/query/serialization.py:35-36 | the compact printing of a value, whatever characters its strings and names are made of, is read back as the value by the grammar of RFC 8259 |
| Serialization.JsonStringSize | dataset-mcp/app/query/serialization.py:48-58 | the character loop computes the number of bytes of the printed string, escapes included |
| Serialization.EncodedJsonSize | dataset-mcp/app/query/serialization.py:61-97 | for every nested value, the number of bytes its encoding takes when printed, and the same error exactly when encoding fails |
| ValueReading.ReadsExactlyWhen | dataset-mcp/app/query/serialization.py:100-135 | JSON is the encoding of a value if and only if, read by the kind of the value, it reads as the value: nulls, booleans, texts and integers up to 9007199254740991 as themselves, larger ones and floats that are not finite from strings, raw values as summaries of their type and length, containers part by part under their keys |
| ValueReading.FailsExactlyWhen | dataset-mcp/app/query/serialization.py:100-135 | a value has an encoding if and only if nothing inside has an unsupported type or a key that is not a string, and otherwise the first of these is the error |
| ValueReading.ValueRoundTrip | dataset-mcp/app/query/serialization.py:100-135 | the bytes of a printed encoding, decoded, parsed and read by kind, give every encodable value back |
| Paging.CellWithin | dataset-mcp/app/query/serialization.py:138-151 | a cell is encoded, or summarized when its printed encoding exceeds the limit; `PageReading.CellTellsExactlyWhen` says which JSON that is |
| Paging.CellIsExactOrSummary | dataset-mcp/app/query/serialization.py:138-151 | a cell is its exact encoding if that prints within the limit, and otherwise a summary of 36 bytes and the digits of the size it tells: of the text itself for a string, of the printing for anything else |
| PageReading.CellTellsExactlyWhen | dataset-mcp/app/query/serialization.py:138-151 | JSON is the cell of a value if and only if it tells the value: it reads as it and prints within the limit, or it is a truncation summary of the length of what reads as it |
| Paging.RowWithin | dataset-mcp/app/query/serialization.py:186-192 | a row is encoded cell by cell into its dictionary; the first failing cell decides |
| Paging.RowIsADictionary | dataset-mcp/app/query/serialization.py:186-192 | an encoded row has each column name exactly once, with the cell of the last column of that name, in the order in which names first occur |
| PageReading.RowFailsExactlyWhen | dataset-mcp/app/query/serialization.py:184-192 | a row fails with an error if and only if its width is wrong, or a cell is the first to fail and that is its error |
| Paging.Admit | dataset-mcp/app/query/serialization.py:193-201 | the running byte count decides as printing the whole array would, and stays two bytes short of it |
| Paging.SerializeRows | dataset-mcp/app/query/serialization.py:154-213 | the loop over fetched rows returns exactly the page that printing every prefix would |
| Paging.PageIsLongestFittingPrefix | dataset-mcp/app/query/serialization.py:177-213 | a page is the longest prefix of the rows, up to the limit, whose array fits; there is more exactly when a fetched row is left, and then the page is not empty; each error has its cause |
| Paging.PageBytesAreBounded | dataset-mcp/app/query/serialization.py:193-201 | the printed array of a page exceeds the budget by at most its brackets |
| PageReading.RefusedExactlyWhen | dataset-mcp/app/query/serialization.py:170-175 | a page is refused for its arguments if and only if limit or budget is below one or the offset is negative |
| PageReading.PageTellsRows | dataset-mcp/app/query/serialization.py:177-213 | a page tells the first of the fetched rows, each under the names of the columns in their first order, within the limit and the budget in printed bytes, and ends before the others only for the limit or because a row that tells the next one would exceed the budget |
| PageReading.PageRoundTrip | dataset-mcp/app/query/serialization.py:177-213 | the bytes of a printed page, decoded and parsed, are the page |
| Paging.PagingReassembles | dataset-mcp/query_worker/runtime.py:205-237 | following the next offset ends and yields all rows in order, each once, or those before the page that stops it: for size exactly at the first row that is oversized by itself |
| PageReading.PagingTellsResult | dataset-mcp/query_worker/runtime.py:205-237 | following the next offset tells the result row by row, in order, each once: all of it, or up to a row that is too long by itself, a page with a row that fails with its own error, or the offset limit |
| Paging.PagingIsCompleteExactlyWhen | dataset-mcp/app/query/serialization.py:193-213 | when every row encodes and the offset bound is not reached, paging is complete if and only if no row is oversized |
| Base64.RoundTrip | feature-server/app/provider/ids.py:17-25 | decoding the padded spelling gives the bytes back, in the lenient and in the strict mode of the decoder |
| Base64Bits.SpelledByBits | feature-server/app/provider/ids.py:17-18 | each character of a spelling stands, in the URL-safe alphabet of section 5 of RFC 4648, for the next six bits of the bytes, the highest first, zeros filling up the last six |
| Base64Bits.SpelledLength | feature-server/app/provider/ids.py:17-18 | a spelling has as many characters as the bits of its bytes take by six, rounded up |
| Base64.SpellIsInjective | dataset-mcp/app/query/token_codec.py:155-162 | different bytes have different unpadded spellings, so a canonical spelling is unique |
| Base64.SpellsExactlyWhenCanonical | feature-server/app/provider/ids.py:17-25 | an accepted text is the spelling of its bytes if and only if it has only characters of the URL-safe alphabet, a possible length and no spare bits |
| Text.Utf8RoundTrip | feature-server/app/provider/ids.py:17-25 | strict UTF-8 decoding gives every text back |
| Text.FromUtf8IsStrict | feature-server/app/provider/ids.py:23-25 | the only bytes that decode to a text are those that encode it |
| Text.Utf8ByTable | feature-server/app/provider/ids.py:17-18 | the bytes of a character are those of the table in section 3 of RFC 3629, and no more than needed |
| FeatureIds.DecodeUndoesEncode | feature-server/app/provider/ids.py:52-68 | every valid identity is decoded from its identifier, with dots, slashes and any characters in its path |
| FeatureIds.EncodedAs | feature-server/app/provider/ids.py:52-61 | an identifier is `v1`, the Base64 of the UTF-8 of asset key and path, the checksum and the decimal row number, joined by dots and separated by nothing else |
| FeatureIds.ValidExactlyWhen | feature-server/app/provider/ids.py:45-50 | an identity is valid if and only if its key is not empty and has no dot or slash, its path is safe, its checksum is 64 lower-case hexadecimal digits and its row number is not negative |
| FeatureIds.SafeExactlyWhen | feature-server/app/provider/ids.py:28-33 | a path is safe if and only if it is not empty, has no NUL, does not begin with a slash, and nothing between two slashes or backslashes, or the ends, is empty, a dot or two dots |
| FeatureIds.EncodeIsInjective | feature-server/app/provider/ids.py:52-61 | different identities have different identifiers |
| FeatureIds.DecodedIsCanonicalizable | feature-server/app/provider/ids.py:63-68 | whatever decodes is a valid identity, and its own identifier decodes to it |
| FeatureIds.LeadingZeroIsLost | feature-server/app/provider/ids.py:66-68 | for every valid identity, its identifier with a leading zero in the row number is a second identifier that decodes to it |
| FeatureIds.ScriptIsLost | feature-server/app/provider/ids.py:66-68 | for every valid identity and every digit of its row number, the identifier with a digit of another script and the same value in its place is a second identifier that decodes to it |
| FeatureIds.ArabicThreeIsLost | feature-server/app/provider/ids.py:66-68 | row 3 written as Arabic three is accepted, with canonical text parts and no leading zero, and is not the encoding |
| FeatureIds.EncodedExactlyWhenCanonical | feature-server/app/provider/ids.py:52-68 | an accepted identifier is the encoding of what it decodes to if and only if both text parts are canonical, by their characters, and the row number has only ASCII digits and no leading zero |
| QueryTokens.AcceptsExactlyTheSpelling | dataset-mcp/app/query/token_codec.py:147-171 | a token authenticates a payload if and only if it is the unpadded URL-safe spelling of that payload and its digest, within the size limit |
| QueryTokens.RefusedForAReason | dataset-mcp/app/query/token_codec.py:147-171 | a token either authenticates a payload whose token it is, or is no payload's and fails with an error that says what is wrong with it: characters or padding, size, spelling, decoded size of more than 32 and at most 65536 bytes, or digest |
| QueryTokens.IssuedExactlyWhen | dataset-mcp/app/query/token_codec.py:82-90 | a token is issued for a payload if and only if its serialization has at most 65536 bytes and its token at most 8192, and it is the spelling of the compressed payload and its digest |
| QueryTokens.SecondsTruncate | dataset-mcp/app/query/token_codec.py:188-191 | times are cut to whole seconds towards zero |
| QueryTokens.IssuedTokensDecodeWhileUsable | dataset-mcp/app/query/token_codec.py:59-145 | an issued token decodes to its payload in whole seconds if and only if version 2, times, a lifetime of at most 7200 seconds, distinct aliases and canonical SQL hold, and otherwise fails on the first of these that does not |
| QueryTokens.OnlySignedPayloadsDecode | dataset-mcp/app/query/token_codec.py:92-145 | what decodes is usable at that time and is the spelling of some payload under its own digest |
| Categories.ExtendCategoryRegistry | packages/map-core/src/category.ts:70-91 | the registry after a batch, including the two early returns |
| Categories.CollectUnseen | packages/map-core/src/category.ts:75-82 | the loop collects each normalized value that is not listed, once |
| Categories.AppendedAreFirst | packages/map-core/src/category.ts:85-90 | what is appended is new, sorted, as many as fit, and no later than anything left out |
| Categories.AppendedInOrder | packages/map-core/src/category.ts:62-68 | appended values stand in order: numbers by value, false before true, texts as the engine compares them |
| Categories.ShownExactlyWhen | packages/map-core/src/category.ts:41-56 | over every run a category has been shown if and only if it has the type of the field and some value is shown as it: a flag as itself or by its name, a number as itself, parsed, or as 0 or 1, a text that is not empty as printed |
| Categories.RunRepresents | packages/map-core/src/category.ts:70-91 | over every run of batches the listed values are distinct, shown and at most 32, and overflow holds if and only if more than 32 distinct values were shown, when exactly 32 are listed |
| Categories.PositionsAreStable | packages/map-core/src/category.ts:83-90 | over every run earlier values stay a prefix and overflow is never taken back |
| Categories.NormalizeIsIdempotent | packages/map-core/src/category.ts:41-56 | a normalized value has the type of its field and normalizes to itself |
| Categories.NumericSentinel | packages/map-core/src/category.ts:98-103 | the search ends with the least integer from the smallest safe one on that no listed number equals |

## Left out

- `TileCache` in the source computes entry sizes from keys and contents; here the size is a parameter, and so are the tiles.
- `WorkerPool.close`, `CatalogLifecycle.close` and failing file deletions: teardown ignores holders by design. `start` is the initial state of the pool.
- Worker processes, pipes, timeouts and deadlines: their outcomes are events. Request validation before the queue is a single branch each.
- Routing of paths to a lane, the HTTP response of a refusal and the byte streams of ASGI.
- The order in which waiting tasks are resumed: every order is allowed. Code that suspends in the middle (`serve_connected_tile`, `execute`, `get_or_compute`, the refreshes) is split into events at its suspensions; only the stretches in between are methods.
- ConnectedTile.ReturnsAfterBothEnded: that gathering tasks completes only when all of them have ended, also when it is cancelled, is the rule of the library that it uses.
- Parsing and printing of SQL, the function allow-list, semi- and anti-joins and repeated visible names of one scope: queries start as trees, and the in-place replacement of nodes, by the compiler and by the worker, is a function from tree to tree.
- Sql.Fold: case folding of ASCII letters only.
- SqlMeaning.AcceptedReadsOnlyAliases: semi- and anti-joins, which the policy's walk over scopes treats in its own way, are not part of the queries.
- Sql.World: clauses know an item of the FROM list by its place and by the names that qualify columns, derived tables see the items before them as in DuckDB, and an engine may depend on common table expressions that nothing refers to; one that depends on a visible name in another way, such as printing it, is not a world here.
- PruningSoundness.PlainSelectionsAreSound: how ClickHouse resolves names of a select list is taken from its documentation.
- Rewriting of spatial functions, typed relations, URLs of sources and reprojection text: the relation of a source is a parameter.
- Rounding of coordinates and the encoding of vector tiles; covering boxes are assumed to contain their geometry, and transformed bounds the transformed tile (`Pruning.Consistent`).
- Fetching and validating catalogs: HTTP answers, digests, pointer parsing and URL composition are parameters; cancellation of a refresh in the middle of an activation.
- Serialization.EncodedJsonSize: whether a column holds geometry is a flag instead of the text of its type; the text Python prints for finite floats, decimals, dates, intervals and UUIDs comes with the value; strings are sequences of Unicode scalar values, so lone surrogates do not occur.
- FeatureIds.DecodeUndoesEncode: the interpreter's bound on how many digits it converts, beyond which printing and parsing a row number both raise an error, is not modelled.
- QueryTokens.IssuedTokensDecodeWhileUsable: timestamps without a timezone are not modelled; compression, JSON and the field patterns of the payload are inverse laws.
- Categories.RunRepresents: numbers are finite reals, so the two zeros are one value and non-finite inputs do not occur; strings are compared, and numbers printed and parsed, by parameters.
- The styles built from a registry, quantile breaks, the metadata and covering caches, configuration, routes and user interface: easy or no new difficulty.
