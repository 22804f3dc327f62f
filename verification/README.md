# Verified model of the Figma mirror

figmog keeps a local mirror of Figma files. A pull fetches a file as one JSON tree, flattens it into flat
records, upserts the records into a keyed store and sweeps the ids that vanished. One node table and five
indexes are maintained next to the rows by deltas only; every read (nested dumps, ancestor chains, scopes,
listings) is answered from them. The same store holds version-keyed caches of proxied tool answers and of
image bytes. A serve process holds several such stores as sessions, polls them for changes in turn and
routes tool calls to them. This project models that engine in Dafny and proves that it answers as the last
pulled document would, that its caches never serve an answer to another question or version, and what the
serve loop keeps over any run.

## How the modules fit together

- `Basics`, `Json`, `Model`: orders and sorted listings, JSON with key-sorted members, the record types.
- `Flatten`, `WalkShape`, `Aliases`, `AliasSites`, `Pointers`, `Vars`: the walk over a document, the scan for
  variable bindings, the JSON pointers it writes and the inference that reads them back.
- `Store`, `Sync`, `Pulls`: the keyed stream as a class, the sync transaction, and the two ways to pull.
- `Query`, `Subtree`, `Restore`, `Answers`, `Scopes`: the read algorithms, and their answers in terms of the
  document. `Cycles`: below which nodes the unlimited recursion ends.
- `Mirror`, `Exact`, `Inferred`, `Projection`, `Fields`, `FileRows`, `Indexes`, `Listings`, `Exports`: the above
  put together over arbitrary runs: exactly when the document comes back, what inference reports of it, what each
  dump, row, index and listing holds member by member of the response, and what becomes of stored variables.
- `Cache`, `Images`, `ImageFetch`, `ImageSources`, `ImageAnswers`, `ImageRuns`, `Versions`: proxied calls, the
  image cache, image resolution over an arbitrary network, where its bytes come from, what it returns, and what
  the cached rows keep over runs.
- `Base64`, `Wire`, `Registry`: the image result on the control socket, the merged tool registry.
- `Frames`: the control socket's frame reader.
- `Watch`, `Sessions`, `SessionStores`, `Serve`, `ServeRuns`, `ServeRules`: polling, sessions and their stores,
  the serve loop, its runs, and which file and moment each step of it is about.

Code that changes state is a class or a method (`KeyedStream`, `Connection`, `Reader`, `Watcher`,
`FileSession`, `SessionManager`, the loops of the walk, the scans, the searches, base64 and the frame reader), proved
against a function of the same step; the properties are proved about those functions and their runs.

## What the proofs assume of the inputs

- What is stored after a run needs no assumption on node ids: of records with one id the last is kept.
  For the document to come back, no node has more than 2^32 children (`Countable`), because the child index
  is cast to 32 bits, and its node ids are distinct (`DistinctNodes`); `ExactlyWhen` shows that the latter
  is needed. Only the document last pulled counts, not those before it.
- JSON objects list their keys in strictly increasing order. `raw` is kept as a value, so that printing and
  parsing it lose nothing; of the printed manifest, `Wire` assumes that it parses back (`PrintsBack`).
- What a pointer observes is proved where no token on the way to an alias reads as a separator or an
  escape (`PlainSites`, which `PlainKeysSites` shows of documents with plain keys); `PointerLands` shows
  that this is exactly when a built pointer is evaluated back.
- SVG bytes are valid UTF-8 (`ValidSvg`); matching on the socket is by subject alone, and `OwnDataBack` says
  exactly when that mixes nothing up.
- A poll is quiet after a pull exactly if the meta endpoint names the file endpoint's modification time
  (`QuietAfterPull`); nothing else about the two endpoints is assumed.
- Both key hashes are arbitrary functions. Non-collision appears only in `RepeatIsServed`,
  `SucceededIsHit` and `RepeatAsksNothing`, which say that the caches do serve.
- An unlimited dump needs a rank of the child edges below its root (`Ends`), because the recursion of
  src/query.rs:312-359 has no other bound. `RankedIffAcyclic` says on every store exactly where there is
  one, `WalkRanked` gives one for every store synced from a document with distinct ids, and
  `RepeatedIdCycles` exhibits a response with a repeated id that leaves none.

## Where the code and its documentation differ

The model follows the code.

- src/serve.rs:25-32 says proxied calls are cached in the default session; src/serve.rs:995 uses the first
  session. `FirstIsDefault` states exactly when the two are the same, and `FirstWithoutDefault` reaches a
  state where they are not.
- src/store.rs:64-66 says one edge per distinct variable; src/store.rs:67-77 emits one per binding site. The
  index is a set, and `RunRebuilt` covers the duplicates.
- A fresh command-line pull removes the old store before flattening can fail (src/cli/pull.rs:134-138), so a
  failed one leaves an empty mirror. `CliPull` and `Mirror.CurrentAfter` say so.
- An interruption between a sync and its eviction breaks the agreement of the two kinds of pull
  (`InterruptedPullsDiffer`): the command line's next pull of that version keeps the stale rows, which
  nevertheless are never served (`ServedAnswersAreUpstreams`).

## Model

| member | source | states |
|---|---|---|
| Mirror.RunMirrors | src/cli/pull.rs:134-181 | over any run of pulls of arbitrary documents, interruptions and other writes, from any store, the nodes, components, sets and styles are exactly those of the response last pulled (of records with one id the last), and the meta row is its own |
| Exact.ExactlyWhen | src/query.rs:312-359 | after any such run, with repeated ids or not, the unlimited dump of the root ends and is the last document if and only if its node ids are distinct and no node lacks an id or a children array |
| Exact.DumpNamesOnce | src/query.rs:340-358 | on any valid store with readable records, a dump that ends names every id once, all reached from its root |
| Mirror.DumpIsLastDocument | src/query.rs:312-359 | after any such run the unlimited dump of the root is the last document with missing children arrays put in empty and id-less nodes dropped, if its node ids are distinct; it equals the document if and only if it lacked none |
| Mirror.AnswersAt | src/query.rs:368-392 | the dump of any node of that document, to any depth, under any projection and with or without resolved variables, is what the document shows there |
| Projection.RunDump | src/query.rs:312-359 | after any such run, the dump of any node of the document, to any depth, is exactly the value that shows it member by member: `children` the shown children that have ids, in order; `id`, `name`, `type` and the named members with the node's own values; one annotation per binding if asked for; and nothing else |
| Projection.DumpProjects | src/query.rs:298-358 | that on any store that holds the node's subtree, as an if-and-only-if on the value given |
| Projection.BindingResolves | src/query.rs:72-121 | a binding's annotation has its pointer and variable id and, if the variable is stored, its name and the last value under each mode name, else `unresolved`; and no other member |
| Projection.ProjectsUnique | src/query.rs:298-358 | only one value shows a node |
| FileRows.RunMeta | src/flatten.rs:36-41 | after any such run the stored name, version and modification time are the texts under `name`, `version` and `lastModified` of the response last pulled |
| FileRows.RunRows | src/flatten.rs:57-96 | after any such run there is a component, component set or style row for exactly the members of those objects of the response, each field the member of its own name or the default |
| Fields.RunNodes | src/flatten.rs:107-168 | after any such run that leaves distinct node ids, the stored nodes are exactly those reached through nodes with ids, each with the fields, bindings, parent, child index and nearest page it has in the document |
| Fields.RecordReads | src/flatten.rs:130-159 | every field of a node's record read off the node's members by name, with its default |
| Indexes.ConsumersInDocument | src/store.rs:47-86 | in a synced store a style's, component's, variable's and type's indexed nodes are exactly the document nodes with it in their own `styles`, `componentId`, `boundVariables` and `type` |
| Listings.RowsAreListed | src/query.rs:842-870 | the rows of the node and text listings are those of the document's nodes of the type, on the page and at or below the node asked for, each with its id, its `name` or `characters`, and its page |
| Mirror.MirrorHolds | src/store.rs:245-283 | a valid store that mirrors a response with distinct node ids holds exactly the walk of its document, and its child edges can be ranked |
| Mirror.PulledLookup | src/store.rs:245-283 | every swept id holds what the flattened records hold under it, whatever was stored before and whatever the variables export adds |
| Flatten.Walk | src/flatten.rs:107-168 | the recursive walk pushing onto its accumulator appends exactly the records of the subtree, with inherited parent, index and page |
| Flatten.FlattenFile | src/flatten.rs:35-99 | the flattened file, or the first missing required field |
| FileRows.FlattenWhen | src/flatten.rs:35-47 | a response flattens if and only if it has its three texts and a document; otherwise the error names the first missing one |
| Flatten.RecordsKeyed | src/flatten.rs:35-99 | every record is keyed by its own kind, and keys are distinct if and only if the node ids are |
| WalkShape.WalkParentsFirst | src/flatten.rs:161-167 | every record's parent is the inherited one or a record before it |
| WalkShape.KidEdgesIncreasing | src/flatten.rs:161-167 | the child edges of a node come out strictly sorted when its children fit a 32-bit index |
| WalkShape.OnePageKids | src/flatten.rs:118-128 | below a page with no page under it, every record is on that page |
| WalkShape.OwnPageIsOwnKids | src/flatten.rs:118-128 | every document or canvas is its own page wherever it stands |
| Aliases.CollectAliases | src/flatten.rs:218-237 | appends the aliases below a bound-variables value in visiting order |
| Aliases.ScanBv | src/flatten.rs:196-214 | appends the bindings of every bound-variables object below a value |
| Aliases.ScanBoundVariables | src/flatten.rs:188-194 | the bindings sorted and without repeats |
| AliasSites.ScanIsSites | src/flatten.rs:188-237 | the scan is strictly sorted and lists a (pointer, variable) pair if and only if it is an alias site of the node, for every node |
| Pointers.PointerLands | src/flatten.rs:200-213 | a pointer built from unescaped tokens is evaluated (by sections 3 and 4 of RFC 6901, a stray tilde standing for itself) to where the tokens lead in every document, if and only if every token is plain |
| Pointers.EscapeRoundTrip | src/vars.rs:127-127 | the evaluation undoes the escaping of section 3 of RFC 6901 for every token |
| Vars.InferFromNodes | src/vars.rs:116-147 | one usage per bound variable in variable order, with all its sites, sorted, and the printed values found there, sorted without repeats |
| Vars.FoldNode | src/vars.rs:124-131 | folding one node appends exactly its own sites and printed values, in binding order |
| Vars.SiteIsBinding | src/vars.rs:124-125 | a variable's sites are exactly its bindings on the nodes |
| Vars.ValueIsPointedAt | src/vars.rs:126-130 | its observed texts are exactly the printed values its bindings point at |
| Vars.SitesArePostings | src/vars.rs:124-131 | the nodes among a variable's sites are exactly its postings in the bound-to index |
| Vars.ObservedAtPointers | src/vars.rs:126-130 | whatever the keys, what a node is observed to hold is what the pointers built for its alias sites evaluate to |
| Vars.ObservedAtSites | src/vars.rs:126-130 | where no token on the way to an alias reads as a separator or an escape, these are exactly the values standing at the alias sites |
| Inferred.InferredFromDocument | src/vars.rs:116-147 | inference on a store that holds a document with such keys observes exactly the printed values that the document's nodes hold at their alias sites |
| Store.RunRebuilt | src/store.rs:19-82 | after any run of upserts and removes the node table and all five indexes equal those rebuilt from the rows |
| Indexes.StyledByIs | src/store.rs:54-62 | on any indexed store a node is posted under a style id if and only if one of its style slots holds that id |
| Indexes.InstancesOfIs | src/store.rs:45-52 | and under a component id if and only if it is that component's instance |
| Store.OpRebuilt | src/store.rs:260-281 | one operation's deltas keep the tables equal to the rebuilt ones |
| Store.PostingsRetract | src/store.rs:28-82 | retracting a node's edges takes away exactly its own postings |
| Store.PostingsInsert | src/store.rs:28-82 | inserting a node's edges adds exactly its postings |
| Store.Post | src/store.rs:67-77 | inserting edges one by one, repeats included, adds them as a set |
| Store.Unpost | src/store.rs:67-77 | retracting edges one by one, repeats included, removes them as a set |
| Store.KeyedStream.Upsert | src/store.rs:260-270 | returns the replaced record, pushes nothing for an equal one, and otherwise moves every table by the two deltas |
| Store.KeyedStream.Remove | src/store.rs:271-279 | returns the removed record and retracts it from every table |
| Sync.SyncFile | src/store.rs:245-283 | the sync transaction: new rows, churn counts and deltas pushed |
| Sync.UpsertAll | src/store.rs:260-269 | the upsert loop and its three counters |
| Sync.RemoveAll | src/store.rs:271-279 | removes the given ids, counting those that were stored |
| Sync.ChurnConserved | src/store.rs:257-282 | added, changed and unchanged sum to the record count; the rows grow by added minus removed, plus a first meta row |
| Sync.SyncExact | src/store.rs:245-326 | with the full sweepable set the swept kinds equal the flattened records (of equal ids the last) whatever was stored, and every other row is untouched |
| Sync.ResyncIsNoop | src/store.rs:257-282 | syncing the same records again adds, changes and removes nothing and pushes at most the meta row |
| Sync.SweepableIds | src/store.rs:287-304 | the ids gathered from the tables are exactly the stored ids of the four kinds |
| Query.ScopeIds | src/query.rs:29-45 | the search ends on every store, cyclic ones included, with exactly the ids reachable over child edges |
| Query.ResolveUnder | src/query.rs:50-65 | no scope, the reachable ids, or an error exactly for an unknown id |
| Query.Path | src/query.rs:807-836 | the root path, or an error exactly when there is none |
| Query.RootPathUnique | src/query.rs:807-836 | an id has at most one root path |
| Query.DepthOf | src/query.rs:744-761 | the parent links followed before a root, a missing ancestor or a repeated id stops the climb; where there is a root path, its length minus one |
| Query.ScopeIsAncestry | src/query.rs:29-45 | on any store a node with a root path is in a scope if and only if the path passes through the scope's root |
| Query.Matching | src/query.rs:398-427 | type index, page filter and scope select what a plain scan of all nodes by type, page and position selects |
| Query.Find | src/query.rs:398-427 | the strictly sorted rows of exactly the selected nodes |
| Query.Text | src/query.rs:842-870 | the same for text nodes and their characters |
| Subtree.BuildSubtree | src/query.rs:312-359 | the recursive dump, child by child in edge order, projected and annotated |
| Subtree.Dump | src/query.rs:368-392 | the dump at an id, or an error for an unknown one |
| Cycles.RankedIffAcyclic | src/query.rs:340-358 | on any valid store the unlimited recursion from a node can be ranked if and only if nothing reached from it lies on a trail back to itself |
| Cycles.BoundedIffAcyclic | src/query.rs:340-358 | the chains of recursive calls below a node are bounded under that same condition, and otherwise there are chains of every length |
| Cycles.RepeatedIdCycles | src/query.rs:340-358 | syncing a response whose inner node repeats its ancestor's id leaves a cycle, and the ancestor cannot be ranked |
| Restore.BuildShows | src/query.rs:170-193 | a nested answer rebuilt from the tables equals the one read off the document, to any depth, children in original order |
| Restore.WalkAgrees | src/store.rs:28-31 | the children index of a synced store holds exactly the walk's child edges |
| Answers.DumpShows | src/query.rs:312-359 | the dump of any settled node to any depth, projection and annotation is what the document shows |
| Answers.OutlineShows | src/query.rs:170-193 | so is its outline |
| Answers.LocatedSettled | src/flatten.rs:161-167 | every node's records are one contiguous stretch of the walk, with all their stored children in it |
| Answers.RecordLocated | src/flatten.rs:107-168 | every record of a walk stands for a node found by child numbers from the root |
| Answers.RestoredIsDocument | src/query.rs:340-358 | the full dump of a node equals the node if and only if everything in it has an id and a children array |
| Scopes.WalkRanked | src/query.rs:340-358 | on a store synced from a document with distinct ids every child edge goes down, so the unlimited recursion ends |
| Scopes.ChainIsRootPath | src/query.rs:807-836 | the root path of a node is the chain of records along its child numbers, so its depth is their count |
| Scopes.ScopeIsPrefix | src/query.rs:29-45 | one node is in the scope of another if and only if its child numbers begin with the other's |
| Scopes.PlaceUnique | src/flatten.rs:161-167 | a stored id stands at one place of the document |
| Scopes.ScopeIsSegment | src/query.rs:29-45 | the scope of a node is exactly the ids of its own segment of the walk |
| Scopes.PageAbove | src/flatten.rs:118-128 | a record's page is the inherited one or an ancestor of it |
| Scopes.PageIsScope | src/query.rs:398-427 | filtering by a canvas and scoping to it select the same nodes if and only if no page lies below it |
| Pulls.SessionPull | src/sessions.rs:225-297 | one session pull: store untouched on failure, else sync, eviction and sticky geometry |
| Pulls.CliPull | src/cli/pull.rs:134-204 | one command-line pull, including the fresh start and the conditional eviction |
| Pulls.CollectPrior | src/sessions.rs:243-260 | the ids this pull may sweep, variables only when it fetched them |
| Exports.PreparedWhen | src/cli/pull.rs:118-154 | a pull writes if and only if its response flattens and its export, if any, parses; then with the export exactly if there was one |
| Exports.PullVariables | src/sessions.rs:258-268 | under both kinds of pull, whole or cut short: without an export every stored variable and collection reads back as before, with one they are exactly the export's, of equal ids the last |
| Exports.RunVariables | src/cli/pull.rs:146-154 | over any run a variable or collection reads back as the last event that bears on it left it: a committed export (of equal ids the last), a fresh start without one, or a write of that row |
| Pulls.EvictStaleCache | src/store.rs:341-380 | drops exactly the cached responses and images of other versions |
| Pulls.SessionPullCurrent | src/sessions.rs:268-286 | after a session pull every cached row carries the stored version |
| Pulls.PullsAgree | src/cli/pull.rs:155-181 | the two kinds of pull leave the same store if and only if the version moved or nothing cached is stale |
| Pulls.CurrentPullsAgree | src/cli/pull.rs:155-181 | they agree, and keep the caches current, whenever every cached row carries the stored version |
| Versions.RunCurrent | src/store.rs:341-380 | over any run of proxied calls, image calls, pulls of either kind, wipes and other writes from an empty store, every cached row carries the stored version |
| Versions.RunsAgree | src/cli/pull.rs:155-181 | two such runs that differ only in which kind each pull is end in the same store |
| Pulls.SessionPullStores | src/store.rs:251-256 | after a session pull the stored meta row is the pulled file's |
| Pulls.InterruptedPullsDiffer | src/cli/pull.rs:155-181 | after an interruption between sync and eviction they do not |
| Pulls.GeometrySticks | src/store.rs:399-430 | once on, the geometry setting stays on under both kinds of pull |
| Exports.RunGeometry | src/store.rs:399-430 | over any run from an empty store the setting is on if and only if some whole pull since the last fresh start asked for it |
| Pulls.SyncKeepsCaches | src/store.rs:245-283 | a sync leaves cached responses, images and settings alone |
| Cache.ProxyCall | src/proxy.rs:121-163 | one proxied call: served, forwarded, stored or not, and whether to poll |
| Cache.CacheStore | src/cache.rs:67-88 | stores one response under its hashed key |
| Cache.ServedAnswersAreUpstreams | src/cache.rs:46-60 | for any hash and any run, a response served without contacting upstream is one upstream gave, not an error, to that tool and those arguments at the version held now |
| Cache.StepHonest | src/proxy.rs:121-163 | every call, pull, interruption and write keeps all cached rows honest |
| Cache.RepeatIsServed | src/proxy.rs:121-163 | a stored answer does answer the same call again, after any calls of it or under other keys, pulls of the same version, whole or cut off, and writes of other rows |
| Cache.UncachedCalls | src/proxy.rs:28-46 | a call is cacheable if and only if it is named `get_` or `list_` and names a node; any other contacts upstream and stores nothing, and polls on success exactly when it is not so named |
| Images.NormalizeIds | src/images.rs:120-130 | the first occurrences of the normalized ids, in order |
| Images.DedupIsDistinct | src/images.rs:120-130 | no id twice, none lost |
| Images.Scan | src/images.rs:208-275 | the hits and sorted fill references of the requested nodes |
| Images.FillRefsAre | src/images.rs:492-502 | the references gathered are exactly those of the image fills of the requested stored nodes |
| ImageFetch.ResolveKind | src/images.rs:304-366 | gathers the misses of one kind, asks once for all of them, then downloads and stores them in order |
| ImageFetch.LoadOne | src/images.rs:322-350 | one miss: looked up in the response, downloaded, stored |
| ImageFetch.Resolve | src/images.rs:286-436 | the items, the stored rows and the calls made, over a network that may answer by everything asked before |
| ImageFetch.OneRequestEach | src/images.rs:304-417 | resolving makes at most one render request, for exactly the ids that missed, in order, and then at most one fills request; none without a miss or a token |
| ImageAnswers.ResolvedInOrder | src/images.rs:419-436 | one item per requested id in order, then one per fill reference, sorted; each the unaltered hit, or the bytes of the download of its own URL in the answer to its kind's one request, or the error of the step that failed |
| ImageSources.FetchesItems | src/images.rs:311-417 | each miss has the bytes of the download of the URL that the answer to its kind's one request holds under its own subject, or the error of the step that failed: no token, no answer, no such URL, no download |
| ImageRuns.FetchedImagesAreTheirOwn | src/images.rs:318-350 | an image fetched by a call, after any calls before, answers the download of its own subject's URL as given by the request that asked for it |
| ImageAnswers.SucceededIsHit | src/images.rs:191-202 | when keys do not collide, a repeat at the same version hits every item that succeeded, byte for byte |
| ImageAnswers.RepeatAsksNothing | src/images.rs:304-417 | so repeating a request that succeeded throughout makes no call at all |
| ImageRuns.ServedImagesWereDownloaded | src/images.rs:208-275 | for any hash and any run, an image served from the cache is what one arbitrary network answered to the download of that subject's own URL, as given by a request for that subject, format and scale, at the version held now |
| ImageRuns.StepHonest | src/images.rs:461-486 | every image call, pull, interruption and write keeps all cached images honest |
| Base64.EncodeBytes | src/images.rs:630-651 | the encoding loop computes the encoding of section 4 of RFC 4648 |
| Base64.DecodeText | src/images.rs:653-688 | the decoding loop, with its length and letter errors |
| Base64.RoundTrip | src/images.rs:630-688 | decoding undoes encoding for every byte sequence, whose encoding has 4 * ceil(n / 3) letters |
| Base64.EncodedGroups | src/images.rs:630-651 | the q-th four letters spell the six-bit digits of the q-th three bytes, from the top bit down, in the alphabet of table 1 of RFC 4648 |
| Base64.TrimIs | src/images.rs:653-660 | what is decoded is the text without the white space at its ends, and without any other change |
| Base64.DecodesWhen | src/images.rs:653-688 | exactly which texts decode |
| Wire.SocketRoundTrip | src/cli/images.rs:165-218 | reading the socket result gives every item's manifest row with the payload of the first deliverable item of its subject |
| Wire.EntryIs | src/images.rs:153-165 | a manifest row has exactly its subject under `id` or `ref`, the kind, format, byte count, cached flag and error |
| Wire.BlockIs | src/images.rs:553-599 | a block is the markup, the base64 bytes or an oversized note, tagged with the subject and, unless a note, the mime type |
| Wire.SocketResultIs | src/cli/images.rs:165-185 | any result is an error with its first text, refused for want of a manifest or of JSON, or read row by row |
| Wire.OwnDataBack | src/cli/images.rs:186-205 | every item gets its own data back if and only if items sharing a subject do not differ where one is sent |
| Wire.DistinctSubjectsComeBack | src/images.rs:553-599 | with distinct subjects every item comes back byte for byte if it fits the cap, and errors and oversized items with no data |
| Wire.RasterFits | src/images.rs:565-590 | a raster item fits exactly when it has at most 786432 bytes |
| Wire.SharedSubjectMixesUp | src/cli/images.rs:192-192 | a failed render that shares its subject with a fill is handed the fill's bytes |
| Registry.MergeRegistry | src/proxy.rs:72-107 | keeps exactly the upstream tools that collide with no local tool and none before them, in order, and reports the others |
| Registry.MergedDistinct | src/proxy.rs:72-107 | the merged registry lists every name once |
| Registry.MergedAreUpstream | src/proxy.rs:84-105 | every added tool stands for an upstream one with its own name, its description marked and its schema, never under the reserved prefix, and no new name is left out |
| Frames.ReadLine | src/serve.rs:302-328 | collects the chunks up to the first newline and consumes exactly that much, or fails on an oversized line or a read error |
| Frames.ReadBoundedLine | src/serve.rs:302-338 | the first line stripped, end of file, too long, a read error, or not UTF-8; what is left is the rest of the stream |
| Frames.ReadFrames | src/serve.rs:350-394 | however the stream is chunked, the frames are those of the stream when every line fits; no frame exceeds the cap by more than a chunk |
| Frames.LinesAreStream | src/serve.rs:302-338 | no byte is lost or read twice |
| Frames.LinesEndAtNewlines | src/serve.rs:302-338 | a newline ends a line and stands nowhere else in it |
| Frames.FramesAreLines | src/serve.rs:302-338 | on valid text the frames are the stripped lines, one for one |
| Frames.StripIs | src/serve.rs:332-334 | a frame is its line without the carriage returns and newlines at its end, all of them, and nothing else |
| Watch.Watcher.Poll | src/watch.rs:44-62 | the watermark, backoff and outcome of one poll |
| Watch.PollsBackOff | src/watch.rs:44-62 | after k failed polls in a row the next failure waits min(5 * 2^k, 300) seconds, and nothing seen is forgotten |
| Sessions.FileSession.NotePullSuccess | src/sessions.rs:136-142 | reseeds watermark and backoff from what is now stored |
| Sessions.FileSession.DoPull | src/sessions.rs:158-174 | the session after a pull of either outcome, and the wait |
| SessionStores.PullSession | src/sessions.rs:158-174 | pulling a session's store and noting the outcome keeps the session going by what its store holds |
| SessionStores.SessionGoesByStore | src/sessions.rs:303-317 | so does opening it, and every pull of either outcome |
| SessionStores.RunGoesBy | src/sessions.rs:206-413 | from opening on, over any run of pulls, proxied calls, image calls and polls, the session goes by the meta row its store holds |
| Sessions.SessionManager.Open | src/sessions.rs:458-467 | finds or appends the session of a key, never pulling |
| Sessions.SessionManager.Resolve | src/sessions.rs:494-530 | routing of a file argument, with the pulls each session counts |
| Serve.WatchTick | src/serve.rs:764-809 | one round-robin tick: who is polled, what is pulled, the next deadline |
| Serve.HandleToolCall | src/serve.rs:834-1010 | the sessions, with their counts of pulls, and the deadline after one tool call |
| Serve.ReportedArePulled | src/serve.rs:834-949 | the pulls reported of a call are as many as the sessions counted |
| Serve.BuildSessions | src/serve.rs:723-758 | the sessions and default of a startup, or its error |
| ServeRuns.LoopKeeps | src/serve.rs:660-1010 | from startup over any ticks and calls: keys distinct, default live, every watermark the stored one, every backoff that of its failure count, and the log holding exactly the pulls each session counted |
| ServeRuns.TickKeeps | src/serve.rs:764-809 | a tick keeps that invariant |
| ServeRuns.CallKeeps | src/serve.rs:834-1010 | a tool call keeps that invariant |
| ServeRuns.StartedKeeps | src/serve.rs:735-757 | startup establishes it |
| ServeRuns.StartedDbKeeps | src/serve.rs:668-716 | so does the single-store startup |
| ServeRuns.OnePullPerCall | src/serve.rs:834-949 | by the sessions' own counts a call attempts at most one pull, and a sync or open that reaches a session exactly one |
| ServeRuns.UnchangedMeansStored | src/watch.rs:44-62 | a poll reports no change if and only if the endpoint names the stored modification time |
| ServeRuns.FailedPullIsDetectedAgain | src/sessions.rs:158-174 | a change whose pull failed is reported as a change again |
| ServeRuns.QuietAfterPull | src/sessions.rs:136-142 | after a pull the next poll is quiet if and only if the two endpoints agree |
| ServeRuns.QuietFileIsLeftAlone | src/serve.rs:764-809 | while one file is quiet, no run of ticks and of calls that do not ask for its pull, by name or as the effective default, pulls it or changes what is stored of it, whatever the other files do and even if polls of it fail |
| ServeRuns.FailureWaits | src/cli/pull.rs:216-228 | the k-th failure since the last success waits min(5 * 2^(k-1), 300) seconds; rate limits wait max(interval, Retry-After) and spend no backoff |
| ServeRuns.FailureMovesDeadline | src/serve.rs:798-806 | whichever tick or call a pull fails in, the loop's deadline is then and that wait |
| ServeRules.DeadlineMoves | src/serve.rs:429-440 | while no pull fails, a tick's next deadline is the interval, its even share of at least two seconds, or the wait asked for, and only a proxied call that asks for a poll moves it otherwise, to now |
| ServeRules.CallReaches | src/serve.rs:834-949 | a call that succeeds with a session reaches that of the file it names, mirrored by then, or of the default; an open or sync has pulled that session alone, once |
| ServeRules.StartupSessions | src/serve.rs:735-757 | a startup leaves sessions for exactly the files named, each mirrored unless nothing is watched, and the first named is the default |
| ServeRuns.TicksInTurn | src/serve.rs:783-786 | over ticks and calls that open no new session, the turn moves on by the number of ticks |
| ServeRuns.EveryoneOnce | src/serve.rs:783-786 | with n sessions any n consecutive ticks poll each exactly once, whatever such calls come between |
| ServeRuns.FirstWithoutDefault | src/serve.rs:995-996 | opening two files after a startup without any leaves a first session and no default |
| ServeRuns.FirstIsDefault | src/serve.rs:995-996 | when the first session, which proxied calls use, is the default one |

## Left out

- Text search, and the `text` sink fed by src/store.rs:35-43: the ranking library is not part of this model.
- The tables that are one-to-one filters of the rows (components, sets, styles, variables, caches, meta, settings) are read off the rows; only the node table and the five indexes are kept separately.
- The node answer with its one level of children, style value lookup, `where`, `at`, `stats`, `uses`, `instances` and `components` listings: filters over what is modelled.
- Subtree.BuildSubtree: takes a rank of the child edges where the depth is unlimited, because the program's recursion does not end below a cycle; `Cycles.RankedIffAcyclic` says where there is one and `Scopes.WalkRanked` gives it for documents with distinct ids. The outline of src/query.rs:170-193 is a function of the same shape rather than a second method. The variable tables to resolve against are a parameter.
- Vars.InferFromNodes: the printer of values is a parameter, and a stored raw text that does not parse does not occur.
- Frames.ReadBoundedLine: UTF-8 validity is a parameter.
- Wire.SocketRoundTrip: the wording of the oversized note is abbreviated, and UTF-8 conversion and JSON printing are parameters.
- Cache.ProxyCall: a failure to print the arguments is not modelled; canonical arguments are the key-sorted value itself.
- ImageFetch.Resolve: fill format sniffing and the network's answers are inputs; float scales are taken as the rounded milli value.
- Serve.HandleToolCall: the answers and failures of tools after routing are not part of the serve model, nor the `.figmog/current` file; whether a proxied call asks for a poll is an input, which `Cache.ProxyCall` decides; a session's store is reduced to its meta row, which `SessionStores` shows to be the one its store holds.
- Id normalization, URL parsing, upper-casing of type names and interval clamping: inputs.
- Child bounds, numbers and rounding: a number is whole or has a fraction, which are different values, and is only carried along.
- Hash arithmetic: the hashes stay uninterpreted, so nothing is claimed about how often keys collide.
- HTTP, the upstream handshake, sockets, threads, locks, the storage engine's durability and the layout of stored bytes.
- The parser of variables exports: a pull takes its records as given, keyed as variables and collections.
