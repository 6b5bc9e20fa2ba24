# Proofs about the gSage stateful kernels

A Dafny 4.11 model of the parts of gSage where state, order or text surgery can
go wrong, with proofs of what those parts are for. `dafny verify dfyconfig.toml`
checks the whole project.

| file | what it models |
|---|---|
| `Backfill.dfy` | merging chat runs back into the legacy column, conflict choice, re-running the script |
| `Permissions.dfy` | permission tables, resolution of effective permissions, administrative changes and their invalidation targets |
| `PermissionCache.dfy` | the permission cache as a transition system with interleaved administrators and readers |
| `PermissionService.dfy` | the administrative calls as methods, tied to runs of the transition system |
| `EnvZones.dfy` | rewriting marker-delimited zones of a text file |
| `ToolCallStream.dfy` | reassembling streamed tool calls, text and reasoning |
| `MessageSanitizer.dfy` | stripping recorded messages to what an endpoint accepts |
| `EventStream.dfy` | the server-sent-event reader and the loop that consumes it |
| `BulkRows.dfy` | expiry tokens, parsing and printing bulk import rows |
| `BulkImport.dfy` | the bulk import pipeline: files, resolving collections, posting, accounting |
| `ToolGroups.dfy` | grouping tools, merging their schemas |
| `IngestPoll.dfy` | polling ingestion jobs until a deadline |
| `Shuttle.dfy` | the two-pane selector |
| `OrgForm.dfy` | printing an organization into a form and applying it back |
| `Prelude.dfy`, `Sorting.dfy`, `Text.dfy` | shared sequence lemmas, stable sorting, string operations |

## Results worth knowing

- **The backfill is idempotent exactly when no table-only run is superseded
  inside the table** (`Backfill.IdempotentExactly`). With one row per run id it
  always is; with duplicate rows a second run can still change a session
  (`DuplicateRowsNeedTwoRuns`) and a third never does (`SecondMergeIsFinal`).
- **On a full tie the legacy copy is kept.** The script's header (lines 13-14)
  and the docstring (line 105) promise the table copy; the code returns the
  legacy one, and the model follows the code.
- **The permission cache can keep a stale answer.** A reader loads and stores in
  two steps; a store that lands after the invalidation it should have preceded
  leaves a revoked permission cached with nothing in flight
  (`StoreAfterInvalidationIsStale`). `RunCoherentExactly` says exactly which
  runs stay coherent, `OrderlyRunsAreCoherent` gives a condition on the schedule
  alone, and `StalenessIsBounded` shows that in every run, lost invalidations
  included, the cache stops granting a revoked permission within the entry
  lifetime of 30 seconds plus the longest load-to-store gap. Runs include
  readers that load a key another one has just filled, or that cannot read the
  cache.
- **Zone rewriting is idempotent exactly when a marker is missing, or the end
  marker reaches past the begin marker and the generated text does not contain
  it**; otherwise every run makes the file longer.
- **`group_tools` on its own is independent of the order of its input exactly
  when no un-namespaced tool shares its title, or its dictionary key, with a
  family** (`ToolGroups.OrderIgnoredExactly`; `ClashExample` is a clash). The
  generated documents do not depend on discovery order even then, because the
  script sorts the tools by name first (`DocumentedGroupsIgnoreOrder`).
- **A printed import row reads back from its line whatever the delimiter, unless
  its slug starts with `#`**: then the line is taken for a comment
  (`BulkImport.PrintedLineIsData`).
- **A provider list survives the organization form exactly when it is non-empty
  and all its names are non-empty, trimmed and free of commas.**

## Model

| member | source | states |
|---|---|---|
| `Backfill.PickIsLegacyBiasedMaximum` | scripts/backfill_agno_runs.py:92-121 | The copy kept is never beaten by the other on (message count, status finality); the table copy is returned exactly if it beats the legacy one or equals it |
| `Backfill.PickOutright` | scripts/backfill_agno_runs.py:106-121 | Which copy and which label come out, from the message lists and statuses of the two |
| `Backfill.FinalityOutright` | scripts/backfill_agno_runs.py:58-64 | Completed and error are the most final, then cancelled, then paused, then anything else |
| `Backfill.PickAssociative` | scripts/backfill_agno_runs.py:92-121 | Conflict choice is associative and absorbs a repeated copy |
| `Backfill.IndexTable` | scripts/backfill_agno_runs.py:137-140 | The index holds, for each non-empty id, the last row with it |
| `Backfill.SettleLegacy` | scripts/backfill_agno_runs.py:142-162 | The loop over the legacy column settles each run, counts outcomes and collects ids |
| `Backfill.AppendTableOnly` | scripts/backfill_agno_runs.py:164-169 | The loop appends the first row of every id not yet seen, and counts it |
| `Backfill.MergeRuns` | scripts/backfill_agno_runs.py:124-183 | The merged list and counters are those of the specification, missing column included; `JoinedOutright` and `MergeIsChronological` say what the list is, `OutcomesCounted` and `EntryTallyOutright` what is counted |
| `Backfill.JoinedOutright` | scripts/backfill_agno_runs.py:142-169 | What is sorted: each object of the column in order, settled against the last row with its id, then in row order the first row of every id the column lacks |
| `Backfill.MergeIsChronological` | scripts/backfill_agno_runs.py:171-181 | Earlier time stamps come first, untimed runs last, and runs with the same time stamp, or none, keep the order they were appended in |
| `Backfill.MergeIsStableAndOrdered` | scripts/backfill_agno_runs.py:171-181 | The result is a stably sorted permutation of the appended runs |
| `Backfill.MergeIsTheOnlyStableOrder` | scripts/backfill_agno_runs.py:171-181 | Any list with that order and stability is the merge |
| `Backfill.MergeConservesRuns` | scripts/backfill_agno_runs.py:142-169 | Ids are exactly legacy ids union table ids, each with its number of copies; runs without id survive with multiplicity |
| `Backfill.CountersAddUp` | scripts/backfill_agno_runs.py:126-169 | Malformed entries are counted exactly, the other seven counters sum to the runs with an id, and table-only counts the ids only the table has |
| `Backfill.OutcomesCounted` | scripts/backfill_agno_runs.py:126-162 | Each counter is the number of column entries with that outcome |
| `Backfill.EntryTallyOutright` | scripts/backfill_agno_runs.py:142-162 | Which counter an entry increases, if any, from what it is and the last row with its id |
| `Backfill.SharedRunsKeepTheirHistory` | scripts/backfill_agno_runs.py:142-162 | With distinct table ids, a run of the result that both sides have is the choice between the table copy and one of its legacy copies, with at least the messages of either, and neither beats it |
| `Backfill.EveryCopyIsSettled` | scripts/backfill_agno_runs.py:142-162 | Every legacy copy of a shared run is settled against the table copy and stays in the result |
| `Backfill.SharedRunIsTheChoice` | scripts/backfill_agno_runs.py:153-162 | With one copy on each side the result holds the choice between the two |
| `Backfill.IdempotentExactly` | scripts/backfill_agno_runs.py:124-183 | Merging the result again changes nothing if and only if no table-only run is superseded by a later row of the table |
| `Backfill.IdempotentForDistinctIds` | scripts/backfill_agno_runs.py:124-183 | For every legacy list and every table with distinct ids, merging twice equals merging once |
| `Backfill.SecondMergeIsFinal` | scripts/backfill_agno_runs.py:124-183 | For any table, the second merge is never changed by a third |
| `Backfill.DuplicateRowsNeedTwoRuns` | scripts/backfill_agno_runs.py:137-169 | Two rows of one run for which the first re-run still changes the result |
| `Backfill.Sessions.Backfill` | scripts/backfill_agno_runs.py:269-312 | A pass counts the sessions whose column differs from its merge and, when applying, rewrites exactly those |
| `Backfill.FlattenOutright` | scripts/backfill_agno_runs.py:281-292 | Rows contribute in order: an object itself, a list its objects, an unreadable value nothing |
| `Backfill.Sessions.ApplyTwice` | scripts/backfill_agno_runs.py:295-312 | After one applied pass a second finds no changed session |
| `Backfill.ReapplyChangesExactly` | scripts/backfill_agno_runs.py:295-312 | When a second pass still finds a session changed; a third never does |
| `Permissions.GrantedByScopes` | src/mcp_server/permissions.py:123-161 | Granted tags are those of the global scope and the requested department's scope of the user's groups in the org, and no others |
| `Permissions.ResolveOutright` | src/mcp_server/permissions.py:36-78 | From the tables alone: none without a group in the org; an error exactly with two active profiles of the org and interface; otherwise the tags of the rows that count, as far as the active profile lets them through |
| `Permissions.OneProfileInForce` | src/mcp_server/permissions.py:54-78 | With one active profile the result is the granted tags intersected with its list, or less its list |
| `Permissions.NoProfileInForce` | src/mcp_server/permissions.py:165-170 | With no active profile it is the granted tags |
| `Permissions.ProfileNarrows` | src/mcp_server/permissions.py:54-78 | An interface profile never adds a tag |
| `Permissions.UncoveredKeysUnchanged` | admin_console/services/group_service.py:74-104 | Whatever an administrative change commits, only users it then invalidates can see their effective permissions change |
| `Permissions.WriteTakesEffect` | admin_console/services/group_service.py:122-182 | After a scope is written, a tag is granted exactly if the new list names it for a user it counts for, or another scope grants it |
| `Permissions.ScopeHoldsLastWrite` | admin_console/services/group_service.py:150-170 | After any run of calls a scope reads back as the last accepted list written to it |
| `Permissions.ScopesCommute` | admin_console/services/group_service.py:129-134 | Writes to different scopes commute |
| `PermissionCache.StepCoherentExactly` | src/shared/cache/permissions_cache.py:54-126 | From a coherent state a step leads to a coherent state if and only if it is not a store of an outdated, unqueued answer nor a lost invalidation something depended on |
| `PermissionCache.RunCoherentExactly` | src/mcp_server/permissions.py:81-183 | Every state of a run is coherent if and only if every step meets that condition |
| `PermissionCache.OrderlyRunsAreCoherent` | admin_console/services/group_service.py:170-180 | Runs that lose no invalidation, and in which a reader overtaken by a covering commit stores only while a deletion of its key is still to come, are coherent, and exact once nothing is in flight |
| `PermissionCache.OrderlyFromTheStart` | src/mcp_server/permissions.py:81-183 | The same for every such run from an empty cache |
| `PermissionCache.IndivisibleFillIsCoherent` | src/mcp_server/permissions.py:122-181 | A load followed at once by its store is always safe |
| `PermissionCache.QuiescentIsExact` | admin_console/services/group_service.py:172-180 | A coherent cache with nothing in flight holds only current answers |
| `PermissionCache.StepFrame` | src/shared/cache/permissions_cache.py:74-126 | Exactly which entries each step removes, writes or leaves, with the 30-second lifetime, and which readers a commit overtakes |
| `PermissionCache.StoreAfterInvalidationIsStale` | src/mcp_server/permissions.py:177-181 | A four-step run that ends with nothing in flight and a revoked permission in the cache |
| `PermissionCache.StalenessIsBounded` | src/shared/cache/permissions_cache.py:25-27 | In every run a cached answer is that of a version still in force within the last 30 seconds plus the load-to-store window |
| `PermissionService.Services.SetGroupPermissions` | admin_console/services/group_service.py:122-182 | A missing group or a list the tables refuse changes nothing; otherwise the rows of the scope are those of the list, all others stay, exactly the members' entries in the org are deleted, and an exact cache stays exact |
| `PermissionService.Services.SetGroupUsers` | admin_console/services/group_service.py:185-223 | Members become the requested users that exist and nothing else changes; exactly the entries of old and requested users in the org are deleted |
| `PermissionService.Services.RemoveGroup` | admin_console/services/group_service.py:74-104 | The group and all its rows are gone, everything else stays, exactly the ex-members' entries in the org are deleted |
| `PermissionService.Services.AddInterfaceProfile` | admin_console/services/tool_service.py:128-166 | Unless the department already has one for the interface, an active profile with no tools is stored and exactly the org's entries are deleted |
| `PermissionService.Services.ChangeInterfaceProfile` | admin_console/services/tool_service.py:169-196 | A missing profile or a clash changes nothing; otherwise its fields are replaced and exactly the org's entries deleted |
| `PermissionService.Services.RemoveInterfaceProfile` | admin_console/services/tool_service.py:199-227 | The profile goes, nothing else changes, and exactly the org's entries are deleted |
| `PermissionService.Services.ResolveToolPermissions` | src/mcp_server/permissions.py:81-183 | A hit returns the entry, a miss resolves and stores; on an exact cache the answer is the effective one |
| `PermissionService.CallKeepsCacheExact` | admin_console/services/group_service.py:172-180 | Committing and then deleting every target keeps an exact cache exact |
| `PermissionService.CallIsUninterruptedRun` | admin_console/services/group_service.py:170-180 | A call run alone is a run of the transition system: a commit and its invalidations in any order |
| `EnvZones.Find` | scripts/generate_env_defaults.py:439-440 | The first occurrence, or -1 exactly if there is none |
| `EnvZones.RewriteFrames` | scripts/generate_env_defaults.py:449-455 | Everything through the begin marker and from the end marker on is unchanged |
| `EnvZones.RewriteOutright` | scripts/generate_env_defaults.py:442-455 | The rewritten text written out from the first occurrences of the markers; without one of them nothing changes |
| `EnvZones.IdempotentExactly` | scripts/generate_env_defaults.py:431-455 | Rewriting twice equals once if and only if a marker is missing, or the end marker reaches past the begin marker and the new text does not contain it |
| `EnvZones.MisplacedMarkersGrow` | scripts/generate_env_defaults.py:442-455 | Otherwise the second run makes the text longer |
| `EnvZones.ReversedMarkersExist` | scripts/generate_env_defaults.py:442-455 | A file with its markers reversed is such a case |
| `EnvZones.UpdateIdempotent` | scripts/generate_env_defaults.py:458-488 | For two disjoint zones in either order, or with either one skipped for want of a marker, the full update is a no-op on its own output |
| `EnvZones.UpdateFrames` | scripts/generate_env_defaults.py:458-488 | The full update replaces the two interiors and nothing else, whichever zone comes first |
| `EnvZones.UpdateWithoutZone` | scripts/generate_env_defaults.py:442-447 | With a marker of one zone missing, the full update is the rewriting of the other |
| `EnvZones.EnvExampleSettles` | scripts/generate_env_defaults.py:41-54 | Idempotence with the markers the script uses |
| `ToolCallStream.RunStreaming` | scripts/debug_vllm_toolcalls.py:485-524 | Text, reasoning, tool calls, finish reason and usage are those of the specification, which the next four rows tie to the chunks |
| `ToolCallStream.StreamReassembles` | scripts/debug_vllm_toolcalls.py:505-524 | If the pieces the chunks deliver, end to end, interleave cuts of some calls, the answer has exactly those calls in index order |
| `ToolCallStream.StreamSays` | scripts/debug_vllm_toolcalls.py:494-504 | Text is the concatenated content; reasoning is the concatenated reasoning content where it is not empty and the other reasoning field otherwise |
| `ToolCallStream.StreamFinishes` | scripts/debug_vllm_toolcalls.py:517-518 | The finish reason is that of the last chunk that has one |
| `ToolCallStream.StreamReports` | scripts/debug_vllm_toolcalls.py:519-520 | The usage is that of the last chunk that reports one |
| `ToolCallStream.GatheredIsSpelled` | scripts/debug_vllm_toolcalls.py:505-516 | The slot of an index is the last non-empty id and the concatenated names and arguments of its pieces |
| `ToolCallStream.ReassemblyIsExact` | scripts/debug_vllm_toolcalls.py:505-524 | However calls are cut, by their fields, and their pieces interleaved, exactly the calls come back, in index order |
| `ToolCallStream.ReassemblyOfList` | scripts/debug_vllm_toolcalls.py:505-524 | Calls numbered from zero come back as the list they were |
| `MessageSanitizer.SanitizeMessages` | scripts/debug_vllm_toolcalls.py:359-394 | Fails exactly on an unhashable role, otherwise gives the sanitized list |
| `MessageSanitizer.SanitizeIdempotent` | scripts/debug_vllm_toolcalls.py:347-394 | Sanitizing a sanitized list changes nothing |
| `MessageSanitizer.SanitizeKeepsOrder` | scripts/debug_vllm_toolcalls.py:367-394 | The result for a list is the results of its parts in order |
| `MessageSanitizer.SurvivorsAreAcceptable` | scripts/debug_vllm_toolcalls.py:386-393 | Survivors carry only allowed non-null fields; assistants have content or tool calls, tool messages a call id |
| `MessageSanitizer.SurvivorOutright` | scripts/debug_vllm_toolcalls.py:334-392 | Field by field what a survivor holds: its role, every non-null field its role may carry, and empty content for an assistant with nothing else |
| `MessageSanitizer.ToolCallsOutright` | scripts/debug_vllm_toolcalls.py:347-357 | All objects among the tool calls are kept in order, each with id, index, type and function, name and arguments as given or defaulted |
| `MessageSanitizer.CrashesOutright` | scripts/debug_vllm_toolcalls.py:365 | Only a role that is a non-empty list or object stops the run |
| `MessageSanitizer.OnlyUnusableMessagesDropped` | scripts/debug_vllm_toolcalls.py:368-392 | Exactly non-objects and tool messages without a call id are dropped |
| `EventStream.StreamMessage` | cli_client/client.py:616-630 | The line loop yields what the line grammar says |
| `EventStream.DecodeOutright` | cli_client/client.py:616-630 | On any lines, each data line yields an event of its own under the last event name not ended by a blank line, and no other line yields anything |
| `EventStream.DecodeInvertsEncode` | cli_client/client.py:616-630 | Decoding an encoded event list gives it back, whatever comments and blank lines are added |
| `EventStream.Consume` | cli_client/commands.py:899-920 | The loop shows what the specification says, which the next row states on the events |
| `EventStream.ShownOutright` | cli_client/commands.py:899-920 | The text shown is the concatenated delta fields before the first event that ends the loop, and that event gives the approvals and run id of a pause, the detail of an error, or a failure |
| `EventStream.AnswerIsWhatWasSent` | cli_client/commands.py:899-920 | For an encoded stream with any noise, what is shown is what is shown for the events that were sent |
| `BulkRows.ExpiryOfNumber` | curator/cli.py:157-161 | The decimal of any n >= 1 parses to n days |
| `BulkRows.ExpiryOfUnit` | curator/cli.py:81-83 | Digits, white space and a unit letter in either case parse to that many times 1, 7, 30 or 365 days |
| `BulkRows.ExpiryTokens` | curator/cli.py:143-166 | Exactly six tokens mean no expiry, and only digits with or without a unit mean one |
| `BulkRows.ExpiryIsPositive` | curator/cli.py:132-166 | No token parses to fewer than one day |
| `BulkRows.ParseBulkRow` | curator/cli.py:528-567 | A row is accepted exactly if it has three cells, a slug, an item type after defaulting, a value and a valid expiry; missing trailing cells count as empty |
| `BulkRows.RowOutright` | curator/cli.py:528-567 | Which rows are accepted and what each field of the specification is, cell by cell |
| `BulkRows.RowRoundTrip` | curator/cli.py:528-567 | A printed row parses back to its specification, also with empty trailing cells left off |
| `BulkImport.PrintedLineIsData` | curator/cli.py:597-605 | A printed line with its ending, for any delimiter and with empty trailing cells left off or not, is data unless its slug starts with `#`, and its stripped text parses back |
| `BulkImport.FileRoundTrip` | curator/cli.py:593-611 | A file of printed rows among comments and blank lines parses to exactly those rows with their line numbers, and nothing is skipped |
| `BulkImport.ParseFile` | curator/cli.py:593-611 | Fails exactly beyond 10,000 data lines; otherwise gives the rows of the data lines that parse and the numbers of those that do not, both in file order |
| `BulkImport.CuratorClient.ResolveCollectionId` | curator/cli.py:261-276 | Numeric references need no request; the listing is requested until it succeeds and then kept |
| `BulkImport.CuratorClient.ResolveRows` | curator/cli.py:617-626 | Each row gets the collection its look-up gives or joins the skipped ones, in order, and the listing is requested only while there is none |
| `BulkImport.ResolvedExactly` | curator/cli.py:617-622 | A row is resolved to a collection exactly if its reference is that number, or the listing in hand gives it for the slug |
| `BulkImport.UnresolvedExactly` | curator/cli.py:623-626 | A row is skipped while resolving exactly if that look-up fails |
| `BulkImport.InHandIsFirst` | curator/cli.py:267-268 | The listing in hand is the one kept, or else the first the server gave |
| `BulkImport.ResolvedByOneListing` | curator/cli.py:261-276 | All resolved rows agree with the listing in hand at the end, and so do the skipped ones if the first request succeeds |
| `BulkImport.FindSlugIsFirst` | curator/cli.py:270-276 | A slug stands for the first collection that has it |
| `BulkImport.CuratorClient.PostRows` | curator/cli.py:628-646 | Every resolved row is posted once in order; those counted as added are the accepted ones, and the failed lines those of the rejected ones in order |
| `BulkImport.ItemsOutright` | curator/cli.py:633-641 | Each item goes to the resolved collection with the row's value, type, reference, public reference and expiry |
| `BulkImport.FileIsPosted` | curator/cli.py:593-641 | A file of printed specifications with numeric references is posted as exactly those specifications, field by field and in order |
| `BulkImport.RejectedExactly` | curator/cli.py:642-646 | A line is listed as failed exactly if the server rejects its item |
| `BulkImport.CuratorClient.BulkImport` | curator/cli.py:570-675 | Failures come before any write; otherwise what is posted, skipped, failed and counted is determined by the file and the server's answers, a dry run posts nothing, and the exit code is 0 exactly if nothing failed or was skipped |
| `BulkImport.ReportAddsUp` | curator/cli.py:613-661 | Rows are valid or skipped, and on a real run valid ones are added or failed |
| `BulkImport.EachLineOnce` | curator/cli.py:593-626 | A line number is a data line exactly if it is resolved or skipped, never both and never twice, and resolved rows are in file order |
| `ToolGroups.GroupTools` | scripts/generate_tools_docs.py:228-248 | The loops over the dictionary give the specified groups, which the next three rows state on the tools |
| `ToolGroups.GroupsOutright` | scripts/generate_tools_docs.py:230-246 | There is one group for every key in use: all tools under it by name and then in the order given, with the identity of its first tool |
| `ToolGroups.GroupsInTitleOrder` | scripts/generate_tools_docs.py:248 | Groups stand in dictionary order of their titles, and groups of one title in order of first use of their keys |
| `ToolGroups.KeysInOrderOfUse` | scripts/generate_tools_docs.py:230-242 | Keys are listed in the order in which they were first used |
| `Text.AtMostIsLexicographic` | scripts/generate_tools_docs.py:246-248 | The order of names and titles: a prefix first, then by the first different character |
| `ToolGroups.GroupingIsPartition` | scripts/generate_tools_docs.py:228-248 | Every tool lands in exactly one group, as often as given, with all tools of its key in name order |
| `ToolGroups.GroupingIgnoresOrder` | scripts/generate_tools_docs.py:228-248 | Any permutation of clash-free tools gives the same group sequence |
| `ToolGroups.OrderIgnoredExactly` | scripts/generate_tools_docs.py:228-248 | For `group_tools` alone, independence of order holds if and only if there is no clash of titles or keys |
| `ToolGroups.ClashExample` | scripts/generate_tools_docs.py:228-248 | Two tools, one named like the family of the other, for which the order of the input matters |
| `ToolGroups.DocumentedGroupsIgnoreOrder` | scripts/generate_tools_docs.py:958-959 | With the sort by name that precedes grouping, the groups never depend on discovery order |
| `ToolGroups.MergeSchemas` | scripts/generate_tools_docs.py:299-319 | Properties and defaults are those of the first tool that has them, required fields stand in order of first mention without repetition |
| `ToolGroups.FirstGivenIs` | scripts/generate_tools_docs.py:310-318 | The value taken is that of a tool before which no other has one, and none is taken exactly if no tool has one |
| `ToolGroups.RequiredByFirstMention` | scripts/generate_tools_docs.py:314-316 | The merged required fields are those mentioned, each once, ordered by first mention |
| `ToolGroups.FirstByNameWins` | scripts/generate_tools_docs.py:299-319 | Within a family the winning property is that of the declaring tool first in name order, and there is one exactly if some tool declares the field |
| `ToolGroups.FirstDefaultByNameWins` | scripts/generate_tools_docs.py:317-318 | The same for defaults |
| `IngestPoll.PollJobs` | cli_client/ingest.py:121-154 | Each distinct job ends with its first terminal status, or a timeout if it had none; rounds are bounded by the timeout, and a timeout means the deadline has passed |
| `IngestPoll.EndingOutright` | cli_client/ingest.py:134-152 | A job ends with the first answer that says completed or failed, in capitals or not, and with a timeout if there is none |
| `IngestPoll.PollRound` | cli_client/ingest.py:134-144 | Pending and final keep partitioning the jobs |
| `IngestPoll.SummaryAddsUp` | cli_client/ingest.py:368-400 | Completed, failed and timed out add up to the distinct jobs; exit is 0 exactly if all completed and every upload succeeded |
| `IngestPoll.SummaryOutright` | cli_client/ingest.py:368-400 | Which final statuses count as completed, failed and timed out, and when the exit code is 0 and when 2 |
| `Shuttle.MoveByValues` | admin_console/widgets/shuttle.py:284-294 | Removing the chosen items one at a time leaves the others in order and appends the chosen ones in order |
| `Shuttle.ShuttleWidget.OnButtonPressed` | admin_console/widgets/shuttle.py:141-166 | The four buttons act as the step function says |
| `Shuttle.MoveRightOutright` | admin_console/widgets/shuttle.py:143-147 | The right arrow moves the selection, or else the highlighted item, from the available to the end of the assigned pane and clears the selection |
| `Shuttle.MoveLeftOutright` | admin_console/widgets/shuttle.py:148-152 | The left arrow does the same in the other direction |
| `Shuttle.AllButtonsOutright` | admin_console/widgets/shuttle.py:153-162 | The double arrows move everything and clear that pane's selection; other buttons do nothing |
| `Shuttle.ShuttleWidget.OnKey` | admin_console/widgets/shuttle.py:194-254 | Arrows, space and shifted arrows act as the step function says |
| `Shuttle.OutwardArrow` | admin_console/widgets/shuttle.py:212-227 | The arrow that points to the other pane acts like enter |
| `Shuttle.SpaceOutright` | admin_console/widgets/shuttle.py:229-238 | Space adds or removes the highlighted value |
| `Shuttle.ShiftOutright` | admin_console/widgets/shuttle.py:240-254 | A shifted arrow adds the highlighted value and that of the row it leads to |
| `Shuttle.ShuttleWidget.OnListViewSelected` | admin_console/widgets/shuttle.py:170-192 | Enter moves the selection, or the highlighted item |
| `Shuttle.EnteredOutright` | admin_console/widgets/shuttle.py:170-192 | With a highlighted row the selection, or else that item, moves; without one nothing does |
| `Shuttle.ValueAtOutright` | admin_console/widgets/shuttle.py:296-307 | Row i shows the i-th item in dictionary order of the captions, equal captions in pane order |
| `Shuttle.RunKeeps` | admin_console/widgets/shuttle.py:141-294 | Any session conserves the items, keeps disjoint panes disjoint and selections inside their panes |
| `Shuttle.AssignedComesFromTheStart` | admin_console/widgets/shuttle.py:86-104 | From a fresh widget every session ends with the same values, split between the panes, selections inside |
| `Shuttle.MoveThereAndBack` | admin_console/widgets/shuttle.py:284-294 | Moving values over and back restores the assigned pane exactly if none of its items had one of them, and then the available pane has its items again with the moved ones last |
| `OrgForm.IntRoundTrip` | admin_console/services/org_service.py:167-171 | Every integer parses back from its text |
| `OrgForm.ParseIntOutright` | admin_console/services/org_service.py:167-171 | Digits with or without a sign, and white space around, parse to their number |
| `OrgForm.ProvidersRoundTripExactly` | admin_console/services/org_service.py:163-166 | A provider list reads back from its printed form if and only if it is non-empty and all names are non-empty, trimmed and comma-free |
| `OrgForm.ProvidersOutright` | admin_console/services/org_service.py:163-166 | Provider text is the stripped non-empty names between commas, or the local provider if there is none |
| `OrgForm.ApplyFieldOutright` | admin_console/services/org_service.py:156-175 | What each field name and value does to the organization |
| `OrgForm.FieldRoundTrip` | admin_console/services/org_service.py:156-191 | Re-applying a printed field leaves the organization unchanged exactly if the field is skipped or reads back |
| `OrgForm.UntouchedFormChangesNothing` | admin_console/services/org_service.py:156-191 | Saving an untouched form changes nothing if and only if every field in it is skipped or reads back |

## Left out

- PermissionCache.Next: a reader's three queries are one snapshot of the tables, and scanning for keys and deleting them is one step; an interleaving inside either is not modelled.
- PermissionCache.OrderlyRunsAreCoherent: an administrator's read of the member list and the commit are one step; the code takes no lock between them, so two racing administrators are not covered.
- PermissionService.Services.SetGroupUsers: the order in which affected users are invalidated is arbitrary, as it is for the set the code loops over.
- Permissions.Apply: group names, descriptions and the unique index on them, users being deleted, and updates that would move a profile to another org (no caller does) are not modelled.
- BulkRows.RowRoundTrip: quoting in delimited rows is library behaviour; cells hold no quotes or line breaks, digits and letter case are ASCII, and the accounting holds for any row splitter.
- EventStream.Consume: payloads are parsed by a parameter; which fields the consumer reads is modelled, JSON itself is not.
- Backfill.Merge: a not-a-number time stamp, for which the sort order is undefined, and run ids that are not text are not modelled; time stamps are exact reals.
- ToolCallStream.RunStreaming: chunk counting, printing and the cut to 240 characters in the final report are left out.
- MessageSanitizer.SanitizeAll: the order of keys inside a message is not modelled.
- ToolGroups.MergeSchemas: the order of keys in the merged property and default tables is not modelled, nor the two spellings of a schema's property table.
- IngestPoll.PollJobs: the clock is a parameter that never runs backwards and advances by at least the sleep between rounds.
- Shuttle.ValueAt: the displayed rows are assumed to be up to date with the panes; redrawing and focus are user interface.
- OrgForm.ParseInt: digit separators and digits outside ASCII, which the library accepts, are not modelled.
- OrgForm.UntouchedFormChangesNothing: the masked key field, which is printed as a mask, and read-only summary fields are not part of the form model.
- `generate_namespace_block` and `_collect_subclasses`: the first-declaring-member rule is the one proved for merged schemas.
- Databases, the HTTP services, Redis connections, container operations and screens: their results are parameters or abstract maps.
- Flag parsing, pagination, log scanning and byte formatting: each is one pass over its input with no state kept between calls.
