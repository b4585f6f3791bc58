# SnatchArr, verified

A Dafny model of the algorithmic cores of SnatchArr and its repository tools. Each file models one component in the
form its code has: worklists and stores that are updated in place are classes and loops, protocols are state machines,
and pure code is functions. The loops are proved against recursive definitions, and the properties are proved of those
definitions for every input, every run or every reachable state.

| file | component | main results |
|---|---|---|
| `ExampleBuilder.dfy` | OpenAPI example builder | the result is an example of its schema, and only a schema without one, or beyond the bounds, is refused; the job stack with write-back slots computes a recursive definition, for any property order; exact success condition; the recursion needs no bound; bounded depth |
| `SchemaBundler.dfy` | MCP request schemas | `$defs` is exactly the reference closure; the output is self-contained; exact condition under which the source stays untouched |
| `ClassScanner.dfy` | class-expression scanner | the frame stack computes recursive descent; every token stands verbatim in the file outside holes; no class word is missed |
| `EntityMatching.dfy` | catalogue entity matching | clusters are connected by strong matches; nothing is lost, invented or duplicated; exact audit log |
| `FavouriteSync.dfy` | favourites sweep | links keep one owner and a second sweep changes nothing; exact outcome under any failures; entities and references agree on what is a favourite; exact condition under which a sweep mirrors the server |
| `KeysetPaging.dfy` | catalogue pages | exact page count on a fixed table; under any changes between pages a row that stays is listed exactly once |
| `SearchPool.dfy` | federated search pool | every schedule is safe and ends after exactly 7n + 3 steps with one result a client |
| `Roadmap.dfy` | roadmap table printer and shape check | the row grammar is unambiguous; exactly which tables are accepted when read back |
| `PublishOrder.dfy` | release publish gate | reached needs are true needs; exactly when they are all; an accepted workflow is gated |
| `TimeoutCallers.dfy` | end-to-end timeout check | the bounded call-graph walk finds exactly the tests that reach a helper, for every segment list |
| `QueueReader.dfy` | download queue reader | pages read a prefix without gap or repeat; the capped memo gives scores by distinct file, not by position |
| `ImageSetScan.dfy` | image set scanner | a synced set describes its files within the caps; a rescan changes nothing; exact deletions of a pass |
| `CappedBody.dfy` | capped response body | for every chunking the whole body or a sticky error after limit + 1 bytes; no overflow |

`Prelude.dfy`, `Sums.dfy` and `Reachability.dfy` hold the shared theory: sequences without repetition, sums over maps in
any visiting order, and reachability with the worklist argument that three components use.

## Where the code and its intent differ

The model follows the code. Five promises hold only under a condition, which is proved exactly.

* A schema that cannot be encoded as JSON is not cloned but used as it is (`tools/mcpschema/defs.go:173-183`). The
  source components stay untouched exactly when no bundled document both fails to encode and holds schema references
  (`SourceIsUntouchedIff`); `BundlingChangesLeakySource` shows one that changes.
* The guard for a server that reports no count never fires, since the page loop has already stopped
  (`api/internal/adult/sync.go:153-188`). A long list then looks complete after one page, and a sweep clears favourites
  that the server still has (`FetchIsCompleteIff`, `MissingCountLooksComplete`, `MarkedSweepMirrorsServerIff`). A list longer
  than the cap whose count stays within it is marked too, and loses what lies behind the cap. A sweep that fails has
  cleared references exactly when its last call is the one that failed (`FailedSweepClearsIff`, `FailedSweepCanClear`).
* The roadmap renderer can print a row that the shape check does not accept. It accepts the row exactly when the title
  is not blank, has no line break inside, ends in no odd run of backslashes, and the count is not negative
  (`RowReadsBackIff`, `RowIsSoundIff`); a whole table further needs a row, and titles and numbers without repetition
  (`RenderedTableIsAcceptedIff`).
* The gate check can lose a gate that a job declares, in two ways. `direct_needs` cuts a needs list at `MAX_JOBS`, so a
  gate named behind the cut is never read (`CutHidesAGate`, `ACutCanHideAGate`); what is read is all there is exactly
  when the cut loses nothing (`ReadIsTrueIff`). And `transitive_needs` bounds its turns, though a job may be put on the
  stack several times: all needs as read are reached exactly when the search would take no more turns than the bound
  (`ReachedIsAllIff`), and no need has to be repeated to exceed it (`AGateCanBeHidden`). So the true needs are found
  exactly when the cut loses nothing and the turns fit (`TrueNeedsAreFoundIff`). The error is on the safe side
  (`ReachedIsNeeded`).
* An empty image directory is meant to keep the index, since its mount may be missing. The scan writes its marker file
  before it lists the directory, so an empty directory keeps the index exactly when the marker cannot be written
  (`EmptyDirectoryIsKeptIff`).

## Assumptions

The database, the network, the file system, clocks, id sources and codecs are parameters: functions, scripts of failures
per call, or abstract tables whose stated behaviour is a precondition. A collation is an injective ranking of names with
the empty name first. The JSON and base64url codecs of a cursor (section 5 of RFC 4648) read back what they wrote. The
URL normaliser of the sweep is idempotent. A query under a cancelled context fails. The base body of a response makes
progress when it is asked for bytes. Limits that the proofs do not depend on are fields or parameters; constants have
the source's values.

## Model

| member | source | states |
|---|---|---|
| ExampleBuilder.ResolveLoop | tools/upstreamspec/openapi.go:275-299 | the bounded loop over references and annotations computes the recursive resolution, with the same refusals |
| ExampleBuilder.ResolveOpens | tools/upstreamspec/openapi.go:275-299 | resolving opens only names of the document, none twice; a recursion is cut off only at a name already open |
| ExampleBuilder.ResolveIsChase | tools/upstreamspec/openapi.go:275-299 | the hop bound refuses exactly what takes more hops than it, and changes no other answer of the chase without a bound |
| ExampleBuilder.ChaseDescends | tools/upstreamspec/openapi.go:275-299 | following references to the end, without any bound, lowers (names not yet open, schema) |
| ExampleBuilder.ShapeDescends | tools/upstreamspec/openapi.go:239-273 | the parts of a container are lower than it in the same measure, without any bound, so the recursive definition stops by itself |
| ExampleBuilder.PlanIsFreeIff | tools/upstreamspec/openapi.go:239-299 | the definition with the hop bound is the one without any bound exactly when no schema it comes to is too many hops away |
| ExampleBuilder.BuildableIff | tools/upstreamspec/openapi.go:217-299 | nothing is refused exactly when no schema is too many hops away and the definition without bounds refuses nothing |
| ExampleBuilder.HopBoundOnlyRefuses | tools/upstreamspec/openapi.go:275-299 | a larger hop bound never changes an answer that a smaller one gave |
| ExampleBuilder.DocumentedPathsArePresent | tools/upstreamspec/openapi.go:239-273 | every path of property names and array elements that the document describes leads to the example of the schema found there; arrays have one element |
| ExampleBuilder.PathsOpenNamesOnce | tools/upstreamspec/openapi.go:239-299 | along every path no name is opened twice, and a null that cuts a recursion off is for a name open above |
| ExampleBuilder.DepthIsBounded | tools/upstreamspec/openapi.go:217-299 | the example nests no deeper than the number of names times the deepest named schema plus the root schema |
| ExampleBuilder.PlanFits | tools/upstreamspec/openapi.go:208-325 | what the recursive definition builds is an example of its schema, said of the schema alone: the first value of an enumeration, an object with exactly the property names, an array of one element, a value of the type and in the form of its format, and null only for an untyped schema or a name already open |
| ExampleBuilder.RefusedIff | tools/upstreamspec/openapi.go:239-325 | a problem at a path is reported exactly when the schema found there has it: missing, a reference that names nothing, an unsupported keyword or type |
| ExampleBuilder.ExampleExistsIff | tools/upstreamspec/openapi.go:217-325 | nothing is refused exactly when no schema is too many hops away and the schema has an example at all |
| ExampleBuilder.ProblemIsReal | tools/upstreamspec/openapi.go:239-325 | every problem reported under the hop bound is one of the schema, or a schema is too many hops away |
| ExampleBuilder.FillKeepsMeaning | tools/upstreamspec/openapi.go:220-273 | writing the awaited value into a slot leaves what every value of the store stands for |
| ExampleBuilder.Builder.Expand | tools/upstreamspec/openapi.go:239-273 | one job fills its slot with a finished value or a container and leaves the jobs of its parts, in any property order |
| ExampleBuilder.Builder.Example | tools/upstreamspec/openapi.go:220-237 | it succeeds exactly when nothing reachable is refused and the value needs at most the bound on nodes, and then the result unfolds to the recursive definition, which is an example of the schema; a failure is explained by the schema or the bounds |
| ExampleBuilder.ExampleOf | tools/upstreamspec/openapi.go:220-237 | under the tool's own bounds it succeeds exactly when no schema is too far away, the schema has an example and few enough values are needed; the result is an example of the schema |
| SchemaBundler.FindRefs | tools/mcpschema/defs.go:99-125 | the worklist finds exactly the references of a document, in any order of keys, changing nothing |
| SchemaBundler.Bundler.CollectDefs | tools/mcpschema/defs.go:80-97 | the definitions end as exactly the names reachable through references, each with a clone of its own, or a reachable unknown name is reported |
| SchemaBundler.Bundler.RewriteRefs | tools/mcpschema/defs.go:138-171 | exactly the cells visited from the root have their reference rewritten in place, and no other cell changes |
| SchemaBundler.Bundler.Clone | tools/mcpschema/defs.go:173-184 | an encodable document is copied to cells of its own with the same meaning; one that is not is returned as it is |
| SchemaBundler.EncodableIff | tools/mcpschema/defs.go:173-184 | a document can be encoded exactly when no path in it leads to a value that cannot |
| SchemaBundler.Bundler.Bundle | tools/mcpschema/defs.go:13-46 | clone, collect and rewrite: `$defs` holds exactly the needed names, and the store is the clones with their references rewritten; a failure leaves the source as it was |
| SchemaBundler.BundleIsSelfContained | tools/mcpschema/defs.go:13-46 | in the body and every definition each reference is one of the source that names no component, unchanged, or `#/$defs/n` for a source reference `#/components/schemas/n` whose definition `n` is there |
| SchemaBundler.BundleRewritesDocuments | tools/mcpschema/defs.go:13-46 | each bundled document that can be encoded is its source with references rewritten and the tree otherwise kept, whatever is bundled with it |
| SchemaBundler.SourceIsUntouchedIff | tools/mcpschema/defs.go:138-184 | the source components stay as they were exactly when no bundled document is both impossible to encode and holding schema references |
| SchemaBundler.BundlingChangesLeakySource | tools/mcpschema/defs.go:13-46 | bundling a map that holds a schema reference and a value that cannot be encoded changes it in the source |
| SchemaBundler.RewrittenOnce | tools/mcpschema/defs.go:138-171 | rewriting a second time changes nothing |
| SchemaBundler.RewriteRefIsRewritten | tools/mcpschema/defs.go:158-171 | `#/components/schemas/n` becomes `#/$defs/n`, and any other reference stays |
| SchemaBundler.RewritingKeepsPaths | tools/mcpschema/defs.go:138-171 | above every `$ref` each path of a document leads to a value of the same kind, keys and length after rewriting |
| SchemaBundler.RewritingChangesRefs | tools/mcpschema/defs.go:138-171 | under a `$ref` only its own text changes, and as references do |
| SchemaBundler.RefsAreAt | tools/mcpschema/defs.go:99-125 | the references of a document are exactly the texts under a `$ref` that no other `$ref` is above |
| SchemaBundler.NeedsIff | tools/mcpschema/defs.go:80-136 | a name is needed exactly when a chain of `#/components/schemas/` references leads to it |
| SchemaBundler.VisitedRefIsIn | tools/mcpschema/defs.go:99-171 | every reference the traversal meets is one of the document |
| SchemaBundler.RefInIsVisited | tools/mcpschema/defs.go:99-171 | every reference of the document is met by the traversal |
| ClassScanner.ScanQuotedString | tools/ci/web_css_classes_check.py:61-74 | the end and content of a string with escapes, as the recursive definition of the first closing quote has them |
| ClassScanner.ClosingQuoteIff | tools/ci/web_css_classes_check.py:61-74 | a string is closed by the first of its quotes that is not preceded by an odd run of backslashes, counted backwards |
| ClassScanner.CommentEndsAt | tools/ci/web_css_classes_check.py:77-86 | a block comment ends behind the first closing mark, a line comment at the first newline, an unclosed one with the text; any other slash is one character |
| ClassScanner.CommentsContributeNothing | tools/ci/web_css_classes_check.py:102-131 | an expression at a comment finds what it finds from behind the comment on |
| ClassScanner.StringsContributeText | tools/ci/web_css_classes_check.py:102-131 | an expression at a string finds the text between its quotes, and what it finds from behind them on |
| ClassScanner.BlankHoles | tools/ci/web_css_classes_check.py:89-100 | exactly the characters of the holes become spaces, in place |
| ClassScanner.Scanner.StepExpr | tools/ci/web_css_classes_check.py:102-131 | one step on an expression frame moves on, keeps the frames nested and loses nothing of what recursive descent finds |
| ClassScanner.Scanner.StepTemplate | tools/ci/web_css_classes_check.py:133-154 | one step on a template frame moves on, keeps the frames nested and loses nothing of what recursive descent finds |
| ClassScanner.ExprStepAdvances | tools/ci/web_css_classes_check.py:102-131 | from every state, each branch of the expression step moves on and keeps each hole frame directly on its template |
| ClassScanner.TemplateStepAdvances | tools/ci/web_css_classes_check.py:133-154 | from every state, each branch of the template step moves on and keeps each hole frame directly on its template |
| ClassScanner.Scanner.Run | tools/ci/web_css_classes_check.py:156-169 | from every well-nested state the loop stops, with the end and the literals that recursive descent finds |
| ClassScanner.ParseExpression | tools/ci/web_css_classes_check.py:156-169 | the stack machine ends where recursive descent ends, with the same literals, offsets and holes |
| ClassScanner.ParseQuotedClass | tools/ci/web_css_classes_check.py:171-200 | a quoted class value is cut into the literals around its holes, as the recursive definition has it |
| ClassScanner.ExpressionIsTrue | tools/ci/web_css_classes_check.py:102-169 | every literal of an expression is the text at its offset with its holes blanked |
| ClassScanner.QuotedClassIsTrue | tools/ci/web_css_classes_check.py:171-200 | every literal of a quoted value is the text at its offset with its holes blanked |
| ClassScanner.WordsAreMaximal | tools/ci/web_css_classes_check.py:202-218 | the words split off are runs without white space that cannot be extended |
| ClassScanner.WordsAreAll | tools/ci/web_css_classes_check.py:202-218 | every such run is split off |
| ClassScanner.FilterTokens | tools/ci/web_css_classes_check.py:202-218 | the reported tokens are the candidate words of the literals, with line and offset, in order |
| ClassScanner.TokensStand | tools/ci/web_css_classes_check.py:202-218 | every token stands verbatim in the file at its offset and line, and overlaps no hole of its literal |
| ClassScanner.NewlinesCounts | tools/ci/web_css_classes_check.py:202-218 | the line of a token is one more than the number of newline characters before it |
| ClassScanner.AfterLastColonIs | tools/ci/web_css_classes_check.py:202-218 | the base of a token is what stands behind its last colon |
| ClassScanner.WordsAreReported | tools/ci/web_css_classes_check.py:202-218 | no candidate word of any literal goes unreported |
| ClassScanner.HandleDirective | tools/ci/web_css_classes_check.py:221-243 | the token and the end of a class directive |
| ClassScanner.ValueBraceIs | tools/ci/web_css_classes_check.py:221-243 | a directive has a value exactly when `={` follows its name behind white space, and it opens at the first brace |
| ClassScanner.ExtractCandidateTokens | tools/ci/web_css_classes_check.py:246-272 | exactly the tokens of the class contexts are extracted, and each stands in the file |
| ClassScanner.ExtractedTokensStand | tools/ci/web_css_classes_check.py:246-272 | whatever is extracted from any position on stands verbatim in the file |
| EntityMatching.MatchByEndpointURL | api/internal/adult/merge.go:101-115 | true exactly when a URL of the entity names, at some endpoint, a link the candidate holds for it |
| EntityMatching.MatchByExternalURL | api/internal/adult/merge.go:118-137 | true exactly when the two share an external URL after normalisation |
| EntityMatching.MatchEntity | api/internal/adult/merge.go:172-191 | the first rule that matches any candidate wins, and within it the first candidate; a name alone never merges |
| EntityMatching.MatchIsUnique | api/internal/adult/merge.go:172-191 | that description determines the answer |
| EntityMatching.StrongMerged | api/internal/adult/merge.go:193-217 | an entity strongly matches a merged entry exactly when it matches one of its members |
| EntityMatching.DeduplicateEntitiesWithAudit | api/internal/adult/merge.go:193-217 | the entries are the merged clusters in order of their first members, each item goes where it matched among the entries that stood when it came, clusters form by strong matches alone, and the audit log holds exactly the name-only matches |
| EntityMatching.ResultIsDetermined | api/internal/adult/merge.go:193-217 | that description fixes the entries and the audit log: no other pair meets it |
| EntityMatching.ClustersAreConnected | api/internal/adult/merge.go:193-217 | every item is tied to the founder of its cluster by a path of strong matches inside the cluster |
| EntityMatching.EntryIsItsFounder | api/internal/adult/merge.go:193-217 | an entry has the identity of the first item of its cluster |
| EntityMatching.NothingIsLost | api/internal/adult/merge.go:193-217 | each URL and each link occurs in the result as often as in the input |
| FavouriteSync.UnionURLs | api/internal/adult/sync.go:118-138 | the union of stored and incoming URLs, normalised, without repeats, capped, first come first kept |
| FavouriteSync.UnionIsStable | api/internal/adult/sync.go:118-138 | a union is distinct and at most 64 long, holds what came in unless it is full, and a second union adds nothing |
| FavouriteSync.UnionKeeps | api/internal/adult/sync.go:118-138 | a clean list only grows at its end and keeps what it absorbed |
| FavouriteSync.FindCandidateByLink | api/internal/adult/sync.go:142-151 | the first candidate that holds the link, if any does |
| FavouriteSync.ResolveMatch | api/internal/adult/sync.go:320-355 | an item goes home by link, else by automatic match, else to a new candidate, and only its home changes; it fails exactly when a new candidate is due and no id is to be had |
| FavouriteSync.ResolvedKeepsApart | api/internal/adult/sync.go:320-355 | resolving gives no link a second owner and removes nothing |
| FavouriteSync.ResolvedKeepsHome | api/internal/adult/sync.go:320-355 | a later item never moves an earlier one |
| FavouriteSync.SecondSightChangesNothing | api/internal/adult/sync.go:320-355 | a processed item seen again goes to the same home and changes nothing |
| FavouriteSync.SweepKeeps | api/internal/adult/sync.go:467-507 | over a whole sweep of any list, repeats included, each link keeps one owner, nothing is removed, and every item ends at home |
| FavouriteSync.SecondSweepChangesNothing | api/internal/adult/sync.go:467-507 | a second sweep over the same items, in any order, changes nothing at any point |
| FavouriteSync.FetchFavorites | api/internal/adult/sync.go:153-188 | the fetch fails exactly when a page that is asked for fails; else it yields a prefix of the server's list without gap or repeat, of known length, and reports truncation as the code does |
| FavouriteSync.FetchIsCompleteIff | api/internal/adult/sync.go:153-188 | the prefix is complete up to the cap exactly when the reported count passes every page boundary before the end |
| FavouriteSync.HonestFetch | api/internal/adult/sync.go:153-188 | with an honest count exactly the first min(N, 500) favourites arrive |
| FavouriteSync.MissingCountLooksComplete | api/internal/adult/sync.go:153-188 | without a count a longer list is cut after one page, below the cap |
| FavouriteSync.SyncOne | api/internal/adult/sync.go:289-396 | one item fails exactly when its reference gets no id, one of its two writes fails, or a new entity gets no id; else it is resolved and its reference points home |
| FavouriteSync.Sync | api/internal/adult/sync.go:467-507 | how a sweep ends is a function of what fails, but for a new entity without an id; the candidates go from state to state as each item in turn is resolved; links keep one owner, every item is at home, new candidates have the ids asked for, and references point home, hold the URLs of the last item with their key, and are marked; the entity rows are written item by item, and after a sweep that came through exactly the entities named by a favourite reference are favourites |
| FavouriteSync.UnmarkedSweepClearsNothing | api/internal/adult/sync.go:467-507 | a truncated sweep, or one that failed before the marking, clears no favourite |
| FavouriteSync.OtherInstancesStay | api/internal/adult/sync.go:467-507 | references of other instances stay as they are, however a sweep ends |
| FavouriteSync.MarkingKeepsTheRest | api/internal/store/queries/adult.sql:211-218 | the marking removes no reference and changes nothing but whether a stale one of the instance is a favourite |
| FavouriteSync.ClearedAgree | api/internal/store/queries/adult.sql:100-110 | the clearing leaves exactly the entities favourites that a favourite reference names, and changes nothing else of their rows |
| FavouriteSync.MarkedFavorites | api/internal/adult/sync.go:467-507 | after the marking the favourites are the items swept and what was seen since the sweep began |
| FavouriteSync.MarkedSweepMirrorsServerIff | api/internal/adult/sync.go:467-507 | a marked sweep later than all sightings leaves the favourites equal to those of any server list exactly when the items fetched name them all; without repeats, exactly when the reported count passes every page boundary before the end of the list, which it never does beyond the cap |
| FavouriteSync.FailureFreeSweepMirrorsServerIff | api/internal/adult/sync.go:467-507 | so does a sweep without failures over any list; when the count is beyond the cap, nothing is cleared, and the favourites are equal exactly when each one before is on the server and each one not fetched was known |
| FavouriteSync.FailedSweepClearsIff | api/internal/adult/sync.go:467-507 | a sweep that did not come through clears a favourite exactly when the last call failed, it is stale and it was not fetched |
| FavouriteSync.FailedSweepCanClear | api/internal/adult/sync.go:467-507 | a run of such a sweep that clears one |
| KeysetPaging.CursorRoundTrip | api/internal/adult/catalog.go:89-119 | a cursor is never empty and reads back as its key, except that one with a nil id is refused |
| KeysetPaging.OrderIsUnique | api/internal/store/queries/adult.sql:80-93 | there is one way only to put rows in key order |
| KeysetPaging.ListPerformers | api/internal/adult/catalog.go:182-232 | the page, the next cursor and every error are those of the listing, for any query that answers as the table says; each item shows a row of the table that the filter lets through, and the limit is the one asked for, 50 by default and 200 at most |
| KeysetPaging.PaddedCursorReads | api/internal/adult/catalog.go:99-119 | white space around a cursor does not matter |
| KeysetPaging.PlainCursorReads | api/internal/adult/catalog.go:99-119 | a cursor that is no base64url text is read as plain base64 |
| KeysetPaging.PageAdvances | api/internal/adult/catalog.go:182-232 | a page's items lie above its cursor in increasing order, and it leaves out no row it passes |
| KeysetPaging.RunGoesUp | api/internal/adult/catalog.go:182-232 | following the cursors lists strictly increasing keys, however the table changes between pages |
| KeysetPaging.StayingRowIsListedOnce | api/internal/adult/catalog.go:182-232 | a finished run lists each row that stayed unchanged exactly once, however the table changes between pages |
| KeysetPaging.FixedTablePage | api/internal/adult/catalog.go:182-232 | on a fixed table page k holds the rows from k times the limit on, and has a cursor exactly when rows remain |
| KeysetPaging.PageCountBounds | api/internal/adult/catalog.go:182-232 | the page count is the only number of pages that reaches the end and would not without its last page |
| KeysetPaging.FixedTableRun | api/internal/adult/catalog.go:182-232 | a run over a fixed table is finished after exactly max(1, ceil(n / limit)) pages, and then holds all matching rows in order |
| KeysetPaging.NextPageIsServed | api/internal/adult/catalog.go:99-119 | no cursor handed out is refused, whatever the table has become |
| KeysetPaging.BlankCursorStartsOver | api/internal/adult/catalog.go:99-119 | a cursor of blanks only lists from the top |
| SearchPool.StepKeeps | api/internal/adult/search.go:140-151 | every step of every actor keeps the account of tokens, results, the wait group and the phase |
| SearchPool.SendNeverBlocks | api/internal/adult/search.go:140-151 | a worker ready to send finds room, and the channel open |
| SearchPool.ReleaseNeverBlocks | api/internal/adult/search.go:140-151 | a worker that gives its slot back never waits |
| SearchPool.SomeoneCanStep | api/internal/adult/search.go:140-162 | some actor can step exactly until the search is finished, and then no worker is left behind |
| SearchPool.StepUsesOne | api/internal/adult/search.go:140-162 | every step takes exactly one off the steps that remain |
| SearchPool.EveryScheduleIsSafe | api/internal/adult/search.go:140-162 | in every state of every schedule at most four searches run, nothing blocks that must not, and the channel is closed only after all workers have gone |
| SearchPool.EveryScheduleFinishes | api/internal/adult/search.go:140-162 | every schedule can go on to exactly 7n + 3 steps, and is finished then and no sooner, with one result drained a client |
| SearchPool.Drain | api/internal/adult/search.go:153-162 | the hits of the clients are gathered in the order of arrival, those of failed instances left out |
| SearchPool.OrderOnlyShuffles | api/internal/adult/search.go:153-162 | whatever the order of arrival, the same hits are gathered, each as often |
| Roadmap.EscapeCell | tools/ci/roadmap_render.py:142-156 | the forward loop with its running count computes the definition by backward runs |
| Roadmap.EscapeEscapesAll | tools/ci/roadmap_render.py:142-156 | after escaping, every listed character is escaped as a backward count judges it |
| Roadmap.EscapeIsIdentityIff | tools/ci/roadmap_render.py:142-156 | escaping leaves a text alone exactly when nothing in it is unescaped |
| Roadmap.EscapeIsIdempotent | tools/ci/roadmap_render.py:142-156 | escaping twice is escaping once |
| Roadmap.EscapeOnlyInserts | tools/ci/roadmap_render.py:142-156 | escaping only puts backslashes before listed characters |
| Roadmap.HasUnescapedPipe | tools/ci/roadmap_render.py:260-273 | the nested backward loops decide exactly whether some pipe is unescaped |
| Roadmap.EscapeKeepsVersions | tools/ci/roadmap_render.py:130-139 | escaping turns no version into another title and no other title into a version |
| Roadmap.SortedIsSorted | tools/ci/roadmap_render.py:171-184 | rows come in key order, each milestone once |
| Roadmap.KeysCompare | tools/ci/roadmap_render.py:130-139 | versions come before other titles and by their numbers, other titles by milestone number, ties by title |
| Roadmap.TupleLessIff | tools/ci/roadmap_render.py:130-139 | number tuples compare by their first difference, and a proper prefix comes first |
| Roadmap.SplitDotsJoins | tools/ci/roadmap_render.py:130-139 | the parts of a title joined by dots are the title, and hold no dot |
| Roadmap.CollapseIsSpaced | tools/ci/roadmap_render.py:159-168 | collapsing white space joins the words by single spaces |
| Roadmap.DescriptionIs | tools/ci/roadmap_render.py:159-168 | a description without words is replaced, another one is its words with the bars escaped |
| Roadmap.RowText | tools/ci/roadmap_render.py:171-184 | the text of the header lines and of a row around its cells |
| Roadmap.RenderTable | tools/ci/roadmap_render.py:171-184 | the table is the header and the rendered rows of the sorted milestones, joined by newlines |
| Roadmap.TokensIff | tools/ci/roadmap_render.py:27-29 | a text is a title of the row pattern, read in pairs forwards, exactly when its backward counts fit |
| Roadmap.RowIsReadOneWay | tools/ci/roadmap_render.py:27-29 | a row matches the pattern in one way only, so any matcher captures the same cells |
| Roadmap.RowReadsBackIff | tools/ci/roadmap_render.py:171-184 | a rendered row stays one line and reads back as its own cells exactly when the title is not blank, has no line break inside, ends in no odd run of backslashes, and the count is not negative |
| Roadmap.RowIsSoundIff | tools/ci/roadmap_render.py:302-323 | a rendered row of one line is accepted with any cells at all exactly under that condition |
| Roadmap.ValidateRowContent | tools/ci/roadmap_render.py:302-323 | the first fault of a row in the order of the checks, and what is remembered of a good one |
| Roadmap.ValidateDataRows | tools/ci/roadmap_render.py:326-346 | the findings of all rows with titles, URLs and the greatest key carried along |
| Roadmap.NoFindingsIff | tools/ci/roadmap_render.py:302-346 | nothing is found exactly when every row is sound, no title or URL comes twice, and no key is below the one before it |
| Roadmap.RowsStayInOrder | tools/ci/roadmap_render.py:130-184 | rows printed in the order of their milestones' keys are in the order of the keys read back |
| Roadmap.LinesReadBack | tools/ci/roadmap_render.py:349-365 | lines joined and closed by a newline split into the same lines |
| Roadmap.SplitLinesSplits | tools/ci/roadmap_render.py:349-371 | the lines of any block hold no break and give the block back with a break between them |
| Roadmap.EndingIs | tools/ci/roadmap_render.py:276-287 | nothing is found at the end of a block exactly when it ends with one newline; else it has none or several |
| Roadmap.HeaderIs | tools/ci/roadmap_render.py:292-299 | nothing is found in the header exactly when its two lines are the ones printed |
| Roadmap.UrlText | tools/ci/roadmap_render.py:302-346 | the text of a URL, and that a row is ordered by the number it ends in |
| Roadmap.CheckShape | tools/ci/roadmap_render.py:349-371 | the findings on the ending, the header and the rows of a block |
| Roadmap.RenderedTableIsAcceptedIff | tools/ci/roadmap_render.py:171-371 | a list of milestones of one repository renders to a block in which nothing is found exactly when it is not empty, all its titles and counts are printable, and no two title cells or numbers are equal |
| PublishOrder.TransitiveNeeds | tools/ci/release_publish_order_check.py:546-564 | the bounded loop returns what its turns reach, or the error of a malformed needs list it met |
| PublishOrder.DirectNeedsAre | tools/ci/release_publish_order_check.py:534-543 | the needs read are the first of those declared, and only a malformed declaration is refused |
| PublishOrder.ReachedIsNeeded | tools/ci/release_publish_order_check.py:534-564 | whatever is reached is truly needed, for every graph, cycles and repeated needs included |
| PublishOrder.ReachedIsAllIff | tools/ci/release_publish_order_check.py:546-564 | all needs as read are reached exactly when the search without a bound, counted from the workflow, takes no more turns than the bound |
| PublishOrder.TrueNeedsAreFoundIff | tools/ci/release_publish_order_check.py:534-564 | for every file, the true needs are found exactly when the cut at the limit loses no need and the turns fit the bound |
| PublishOrder.ReadIsTrueIff | tools/ci/release_publish_order_check.py:534-543 | the needs as read are the true needs exactly when, in the lists the search comes to, nothing behind the cut is lost |
| PublishOrder.CutHidesAGate | tools/ci/release_publish_order_check.py:534-564 | a gate listed behind as many names as the limit is truly needed and not reached, though the turns fit the bound |
| PublishOrder.ACutCanHideAGate | tools/ci/release_publish_order_check.py:534-588 | for every limit of at least three there is such a workflow of three jobs |
| PublishOrder.FewNeedsTakeFewTurns | tools/ci/release_publish_order_check.py:546-564 | the search takes no more turns than the needs declared by the jobs it can come to |
| PublishOrder.FewNeedsAreAllReached | tools/ci/release_publish_order_check.py:546-564 | when the needs of the start and of the jobs it can come to number at most the turns, exactly the needs as read are reached |
| PublishOrder.SharedNeedsHideAGate | tools/ci/release_publish_order_check.py:546-564 | needs without repetition or cycle, two of them shared with a later one, use up the turns and hide a declared gate |
| PublishOrder.RepeatsHideAGate | tools/ci/release_publish_order_check.py:546-564 | repeated needs use up the turns and hide a declared gate |
| PublishOrder.AGateCanBeHidden | tools/ci/release_publish_order_check.py:546-588 | for every bound of at least five a workflow within the bound on jobs, with no need repeated, hides a gate |
| PublishOrder.RepeatsCanHideAGate | tools/ci/release_publish_order_check.py:546-588 | with repeated needs, one of four jobs does for every bound of at least four |
| PublishOrder.PublishJobRefusals | tools/ci/release_publish_order_check.py:591-617 | the refusals of a publishing job, in order, or the error of its needs |
| PublishOrder.JobRefusalsIff | tools/ci/release_publish_order_check.py:591-617 | a publishing job is refused nothing exactly when its operations are allowed, it has no bypass condition and its needs reach every gate |
| PublishOrder.JobRefusalsSay | tools/ci/release_publish_order_check.py:591-617 | what each refusal of a job says, and that the gates named as missing are exactly the required ones not reached |
| PublishOrder.CheckWorkflowFile | tools/ci/release_publish_order_check.py:620-640 | the refusals of all jobs in file order, or the first error |
| PublishOrder.AcceptedIff | tools/ci/release_publish_order_check.py:620-640 | a workflow is accepted exactly when each job is cleared and, in the release workflow, triggers are fine and some job publishes |
| PublishOrder.AcceptedMeansGated | tools/ci/release_publish_order_check.py:591-640 | in an accepted workflow every publishing job truly needs every required gate and cannot run after one failed |
| TimeoutCallers.Callers | tools/ci/e2e_timeout_check.py:120-133 | the result is exactly the tests that reach the helper in the call graph, in order, for every segment list |
| TimeoutCallers.EnoughTurns | tools/ci/e2e_timeout_check.py:120-133 | as many turns as segments reach every name that leads to the helper, even if the helper is in no segment |
| TimeoutCallers.AllNamesAreReached | tools/ci/e2e_timeout_check.py:120-133 | a name left after as many turns as segments means that every helper's name was reached |
| TimeoutCallers.ListedIff | tools/ci/e2e_timeout_check.py:120-133 | a test is listed exactly when some call chain leads from it to the helper |
| TimeoutCallers.CallersOfCallers | tools/ci/e2e_timeout_check.py:120-133 | a test that calls a helper which leads to the helper asked about reaches it |
| QueueReader.AppendItem | api/internal/arrclient/queue.go:324-346 | a record with a readable time is appended with its facts, texts and flattened messages, sizes never negative, a missing movie or episode counting as monitored; another is dropped |
| QueueReader.FlattenMessages | api/internal/arrclient/queue.go:385-420 | the status and reason lines of a record's messages, in order |
| QueueReader.ReasonsAreStatusLines | api/internal/arrclient/queue.go:385-420 | no line is empty, and every reason line is a status line |
| QueueReader.ReadPages | api/internal/arrclient/queue.go:71-83 | the page loop maps the records read until an empty page, the reported total or the page bound; any failed page fails the read |
| QueueReader.ReadIs | api/internal/arrclient/queue.go:71-83 | the read fails exactly with the first page asked for that fails, and else yields all pages up to the first that is empty, reaches the total or is the last allowed |
| QueueReader.StableQueueIsRead | api/internal/arrclient/queue.go:63-83 | over an unchanging queue the records read are the first min(total, pages times size), without gap or repeat |
| QueueReader.WithFileScores | api/internal/arrclient/queue.go:88-103 | the pass with its memo asks for the files logged, in order, and scores every item by that log |
| QueueReader.LookupsAreFirst | api/internal/arrclient/queue.go:88-103 | the files asked about are the first so many distinct positive ids |
| QueueReader.LookupsAreFew | api/internal/arrclient/queue.go:88-103 | each file is asked about once at most, no more than fifty are, and within fifty none is left out |
| QueueReader.ScoreIsKnownIff | api/internal/arrclient/queue.go:88-103 | an item has its file's score exactly when the file is among the first fifty distinct ones, wherever the item stands |
| QueueReader.Queue | api/internal/arrclient/queue.go:58-84 | the whole read, with the defaults for bounds that are not positive |
| ImageSetScan.CollectValidItems | api/internal/adult/scan.go:293-334 | the loop collects as defined from the entries it got to, which are all of them unless the pass was cancelled |
| ImageSetScan.CollectKeepsCaps | api/internal/adult/scan.go:293-334 | what is collected keeps the caps on count, set bytes and file bytes, and the total is that of the items |
| ImageSetScan.CollectedIff | api/internal/adult/scan.go:293-334 | an item is collected exactly when some entry within the caps, before the walk stopped, resolves to it |
| ImageSetScan.ResolveIff | api/internal/adult/scan.go:336-362 | an item is that of its file; its facts are the stored ones exactly when the index has the file with the same size and the same time to the microsecond, and those in the file otherwise |
| ImageSetScan.SecondScanChangesNothing | api/internal/adult/scan.go:293-362 | scanning unchanged files against the stored rows collects the same items, stored facts standing for the file |
| ImageSetScan.RescanKeepsSet | api/internal/adult/scan.go:216-362 | a set scanned through is left as it is by the next scan of the same files |
| ImageSetScan.IndexedHoldsItems | api/internal/adult/scan.go:364-399 | the rows hold each item under its path, with its name, size, facts, time and place in the list, and nothing else |
| ImageSetScan.Index.SyncSetItems | api/internal/adult/scan.go:364-438 | after a sync that came through the rows are exactly the items in order and the summary agrees; one that failed touched this set alone |
| ImageSetScan.Index.ScanSingleSet | api/internal/adult/scan.go:216-258 | only the set's own entry changes, none is removed, and a scan that came through stores all its files as collected |
| ImageSetScan.Index.ScanDir | api/internal/adult/scan.go:127-214 | a cancelled, failed or truncated pass deletes no set; a finished one adds only sets whose directories were seen, and a complete one leaves only those, each scanned set as its files say; a calm pass over an empty directory keeps the index exactly when the marker cannot be written or there was nothing to keep |
| ImageSetScan.SourceCapsHold | api/internal/adult/scan.go:39-48 | under the source's limits a synced set has at most 2000 files of at most 100 MiB, and 2 GiB in all |
| ImageSetScan.UncutWalkSeesAll | api/internal/adult/scan.go:144-163 | a pass that was not cut short visits exactly the sets of the directory |
| ImageSetScan.WalkIsBounded | api/internal/adult/scan.go:144-163 | no more sets are visited than the limit |
| ImageSetScan.EmptyDirectoryIsKeptIff | api/internal/adult/scan.go:127-214 | an empty directory keeps the index exactly when the marker file cannot be written into it |
| ImageSetScan.SyncedSetAgrees | api/internal/adult/scan.go:293-420 | a synced set has exactly the files within the caps as rows, in order, and title, count, total and cover agree with them |
| CappedBody.OptionsCapped | api/internal/arrclient/base.go:76-83 | a limit is accepted exactly when one more fits in 64 bits and it is not negative |
| CappedBody.CappedBody.Read | api/internal/arrclient/base.go:179-187 | the next bytes; too large exactly when the byte after the limit has been taken, and from then on always, without reading more |
| CappedBody.CappedBody.ReadAll | api/internal/arrclient/base.go:160-187 | for every chunking and buffer sizes: the whole body and its end exactly when it fits, else too large after limit + 1 bytes |

## Left out

- `api/internal/adult/sync.go` studio functions and `ListStudios`: the same shape as the performer functions that are modelled.
- `queryNames`, `responseSchema` and the decoding of YAML in the example builder: no graph search, and the decoder is not part of this model.
- `resolveBodyRef`, the content type lookup and the filling of `props` and `required` in `buildRequestBody`: lookups before and after the closure.
- JSON, YAML and base64 codecs, `url.Parse`, hashing, image decoding and `format.Source`: abstract functions, with round trips or idempotence stated where they are used.
- The regular expressions of the scanner, the roadmap and the call search: the row pattern is modelled as a grammar, the others as predicates or search functions.
- Decimal digits outside ASCII in roadmap titles and counts: the pattern and the sort key accept them, the model does not.
- FavouriteSync.Sync: times of creation and change are not modelled, and the two queries that load the candidates are one call.
- ImageSetScan.Index.ScanDir: sets and files get no ids or creation times, and thumbnails are not modelled.
- Listing of directories and sorting of names: the entries come sorted, as the file system package returns them.
- SearchPool.EveryScheduleFinishes: a search call is one step that always ends, as its deadline sees to; panics are not modelled.
- ImageSetScan.Index.Query: a failing query changes nothing, and one call is one statement.
- Roadmap.RenderedTableIsAcceptedIff: the milestones are of one repository and their URLs end in their numbers, as GitHub writes them; a row with another number in its URL is covered by RowReadsBackIff.
- Writing roadmap blocks between markers and the diff of `check_roadmap`: text replacement without further structure.
- Classification of workflow steps as publishing and the loading of workflow files: the reasons of each job are inputs.
- `segments` and the budget arithmetic of the timeout check: line splitting and maxima.
- `tools/gennosec`: a line annotator with a checker, easier than the cores that are modelled.
- HTTP clients, gRPC, metrics, logging, configuration, authentication, the web interface, release tooling and test doubles: plumbing over libraries, or shallow decisions.
