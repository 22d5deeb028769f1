# A verified model of the mesh: reviews, routing, and the small text formats around them

The project models the parts of the repository where several functions have to agree with each other, and proves what
they promise together.

- **The review planner** (`codereview/`). `UnionFind`, `Packing`, `Context`, `Imports`, `ImportForms`, `ImportGraph` and
  `Planner` follow `chunk.rs` from import specifiers to chunks; `Assign` follows the pairing of tasks with machines;
  `ReviewRun` is the loop around it, with results, retries and giving up; `Pipeline` joins them: what a run plans, its
  machines have room for.
- **What comes back from the models.** `ExtractJson` finds a JSON value in prose, `LocateQuote` finds a quote in a file
  up to whitespace, `Dedupe` and `CapSuggestions` merge and cap findings.
- **Requests in flight** (`coordinator/`). `Pending` is the one-shot request and reply protocol over the shared pending
  map; `WorkRouter` and `WorkRuns` are the router that lets home commands pause review work, the stream of a review
  request, and all interleavings of both.
- **Text stores.** `Hub` reads and writes the reply table of a Markdown hub, `RoomSinks` keeps a map in a string
  preference, `HereDoc` picks a here-document marker, `Chords` marks up pasted chord sheets, `Costs` adds up what
  sessions cost.
- **Schedules** (`agentwatch/`). `Schedule` holds the eight-day searches for a routine's last and next time against
  their meaning over all days.

`Text`, `Sorting`, `Findings` and `Wrappers` hold what several of these share.

Code that changes state step by step is a method or a class proved equal to a function, and the theorems are about that
function. Concurrent code is a state machine whose steps are what one holder of a lock does at a time; the theorems are
about every run.

Groups of targets are keyed by a display name. That a feature stays together where it fits rests on repos without a
slash in their names, which is how the program names every repo and alias (`validate_spec`,
capabilities/review/src/lib.rs:457-483, and `valid_repo_name`, capabilities/review/src/files.rs:152-160); then it holds
whatever the names (`Planner.FeaturesStayTogether`).

Where a result speaks of an order, a capacity, a kind of line or the like, another says in fields, numbers or characters
what that is (`Assign.ChoiceInFields`, `Dedupe.ReportReadsInOrder`, `Hub.TableIsFirstRun`, `ImportForms` and others).

Where the code does less than its comments or its plan suggest, the model follows the code:

- Re-wrapped quotes are said to match. A quote is found exactly if some line of the file holds its whole first line and
  from there on the quote stands within the window, which ends with the line that makes it 200 bytes longer than the
  quote and its first line (`LocateQuote.FoundIffInReach`). So a quote whose first line joins two lines of the file is
  lost (`LocateQuote.RewrappedQuoteIsLost`), and even a verbatim one that starts at the end of a long line
  (`LocateQuote.LongLineHidesQuote`).
- A reply is said to change nothing else in a hub; a reply of dashes can turn a row into a separator, which drops it
  (`Hub.ReplyChangesOneCell`, `Hub.LostRow`, and `Hub.DashReplyLosesItsRow` for a hub where it happens). The rewritten
  line also loses its indentation and a carriage return at its end (`Hub.RewrittenLosesMargins`).
- Review work is said to go only to idle machines, so that a home command never queues behind it; the home pick and the
  home claim are two critical sections, and review work can start between them (`WorkRuns.WorkCanCutIn`). A home command
  begins beside review work exactly if that work's own pick of the machine had cut in that way and the work is still
  there (`WorkRuns.SharesIffWorkCutIn`).
- The pending map is meant to hold requests that wait. It also holds one that does not, exactly if its caller gave up
  while the entry was there and neither its reply nor the loss of its node has come since (`Pending.LingersExactly`,
  `Pending.AbandonedEntryExists`).
- A routine's last time is said to be the latest one before now. It is, exactly unless it ran before, the clocks skipped
  every run of the seven days before today, and today's, if any, is still to come (`Schedule.LastBeforeIsLast`,
  `Schedule.SkippedRunHidesTheOneBefore`).
- A run plans chunks for its machines as they are, and then measures how fast they read. A planned chunk keeps its room,
  but is handed out only if a machine with that room is unmeasured or fast enough (`Pipeline.PlannedRunNeverStarves`);
  one that was measured too slow in between leaves a review to be given up, free as it is
  (`ReviewRun.SlowMachineStarvesAReview`).
- Adding a sink to a room never disturbs another, as its comment says, whatever is added
  (`RoomSinks.AddDisturbsNoOther`). What is added reads back as itself exactly for a node id and a sink name without
  commas and colons, no blank in front of the node id, and no empty sink name (`RoomSinks.AddRefinesIffClean`).

## Model

| member | source | states |
|---|---|---|
| Forest.UnionFind.constructor | codereview/src/chunk.rs:246-246 | at first every element is its own root and no edge is joined |
| Forest.UnionFind.Find | codereview/src/chunk.rs:197-209 | terminates with x's root, moves no element to another root, and hangs exactly the nodes of x's old path under it |
| Forest.UnionFind.Union | codereview/src/chunk.rs:210-215 | joins the two classes and no others; the joined pairs grow by (a, b); `Valid` keeps that two elements have one root exactly when the joined pairs connect them |
| Forest.CompressionKeepsAllRoots | codereview/src/chunk.rs:202-207 | hanging any nodes of one tree directly under its root changes nobody's root |
| Forest.HangingMerges | codereview/src/chunk.rs:211-214 | hanging one root under another moves exactly that tree's elements, and the parents stay free of cycles |
| Forest.MergingClassesAddsAnEdge | codereview/src/chunk.rs:210-215 | if classes are the reflexive, symmetric, transitive closure of the joined pairs, they still are after merging two and adding the pair |
| Forest.ConnectedThrough | codereview/src/chunk.rs:246-262 | a walk over pairs that are each connected by other pairs is connected by those |
| Packing.PackKeepsEveryTarget | codereview/src/chunk.rs:274-309 | packing neither loses, repeats nor reorders targets: the lists one after the other are the groups one after the other |
| Packing.PackKeepsLimit | codereview/src/chunk.rs:274-309 | no list is empty, and a list over the limit is a single target |
| Packing.GroupTogetherIffItFits | codereview/src/chunk.rs:290-300 | whatever came before, a group lands in one list exactly when it costs at most the limit or is one target |
| Packing.GroupJoinsIfItFits | codereview/src/chunk.rs:290-300 | a group that fits beside the open list joins it, and one that fits only alone starts the next |
| Packing.TargetJoinsIfItFits | codereview/src/chunk.rs:301-308 | a target that fits beside the open list joins it, another starts the next |
| Context.FillContext | codereview/src/chunk.rs:312-348 | the loops over frontier, seen set and tokens compute the chunk the next four rows describe |
| Context.Expand | codereview/src/chunk.rs:326-333 | one breadth-first step yields exactly the unseen imports, each once, in the order met |
| Context.Take | codereview/src/chunk.rs:334-340 | the offered files are taken in order whenever they still fit, across both levels |
| Context.ContextIsNear | codereview/src/chunk.rs:319-342 | context has no repeats, holds no target, and only files at shortest import distance 1 or 2 |
| Context.NearestFirst | codereview/src/chunk.rs:325-342 | every context file at distance 1 comes before any at distance 2 |
| Context.ContextIsGreedy | codereview/src/chunk.rs:334-340 | a file at distance 1 or 2 that was left out would push the final total over budget |
| Context.ChunkKeepsBudget | codereview/src/chunk.rs:312-348 | the total is exactly targets plus context, and exceeds the budget only for one oversized target without context |
| ImportPaths.NormalizeIsIdempotent | codereview/src/chunk.rs:104-116 | a normalised path normalises to itself |
| ImportPaths.DirectorySpellingDoesNotMatter | codereview/src/chunk.rs:104-116 | a specifier resolved against a directory means the same however the directory is spelled |
| ImportPaths.ParentTakesBackOneStep | codereview/src/chunk.rs:104-116 | stepping into a directory and back out with `..` changes nothing, in the middle of any path |
| ImportPaths.ResolveImports | codereview/src/chunk.rs:143-192 | the loop over specifiers yields the resolved files of the next row |
| ImportPaths.ResolvedExactly | codereview/src/chunk.rs:143-192 | resolved imports are known, occur once, and are exactly the first known candidates of the specifiers |
| ImportForms.HereImports | codereview/src/chunk.rs:176-188 | a specifier `./stem` in a file of directory d imports the last file with the first path that exists of d/stem and its endings, and by itself nothing else |
| ImportForms.ParentImports | codereview/src/chunk.rs:176-188 | `../stem` does the same from the parent of the file's directory |
| ImportForms.AliasImports | codereview/src/chunk.rs:181-188 | a specifier in no marked form does the same from the directory and in the repo of the first alias whose prefix it has |
| ImportForms.PackagesImportNothing | codereview/src/chunk.rs:138-142 | specifiers in no marked form and of no alias import nothing |
| ImportForms.JsPathsAre | codereview/src/chunk.rs:122-138 | the endings in their order, and for a `.js` specifier the `.ts` and `.tsx` files right behind it |
| ImportForms.ModImports | codereview/src/chunk.rs:157-166 | `mod m` imports m.rs beside the file, or else m/mod.rs |
| ImportForms.CrateImports | codereview/src/chunk.rs:167-175 | `use crate::m` does the same in the last `src` of the file's path |
| ImportGraph.IndexFindsLast | codereview/src/chunk.rs:226-230 | the index knows exactly the listed files, and of two with one identity finds the later |
| ImportGraph.ImportedExactly | codereview/src/chunk.rs:225-240 | a file is imported exactly if some specifier's first known candidate is its identity and it is the last file of that identity |
| ImportGraph.ImportsAreDistinct | codereview/src/chunk.rs:148-152 | no file is imported twice by another |
| ImportGraph.ReadImports | codereview/src/chunk.rs:226-240 | builds that import graph for all files |
| ImportGraph.PlanChunks | codereview/src/chunk.rs:225-310 | for any files, aliases, specifiers and budget the result is a plan over the import graph, empty exactly when nothing is a target |
| Planner.DirOfPath | codereview/src/chunk.rs:118-120 | a directory is what stands in front of the last slash, and nothing if there is none |
| Planner.FileCostExactly | codereview/src/chunk.rs:34-54 | a file costs twenty tokens, two for every seven bytes begun of its content, cut at 120000 bytes, with six more for every line, and the same of its diff |
| Planner.JoinTargets | codereview/src/chunk.rs:246-262 | the grouping loop's roots are equal exactly for targets connected by chains of "same repo and directory, or one imports the other" |
| Planner.GroupTargets | codereview/src/chunk.rs:263-270 | the map from root names to targets, in ascending key order, while path compression rewrites the parents |
| Planner.PlanFeatures | codereview/src/chunk.rs:242-310 | union-find, grouping, packing and filling together produce a plan in the sense of the lemmas below |
| Planner.EveryTargetOnce | codereview/src/chunk.rs:242-310 | the chunks' target lists hold every target exactly once and nothing else, and none is empty |
| Planner.ChunksKeepBudget | codereview/src/chunk.rs:218-310 | totals are exact, two or more targets keep to 70%, and only a lone oversized target exceeds the budget |
| Planner.ChunksCarryNearestContext | codereview/src/chunk.rs:312-348 | every planned chunk's context is near, nearest first, without repeats, and greedy |
| Planner.GroupsStayTogether | codereview/src/chunk.rs:263-308 | for any names: the targets whose roots share a display name stay together exactly when they cost at most 70% or are one file |
| Planner.FeaturesJoinTargets | codereview/src/chunk.rs:246-262 | chains of related files never lead from a target to a file that is none |
| Planner.FeaturesStayTogether | codereview/src/chunk.rs:218-308 | if no target's repo name holds a slash, a whole feature lands in one chunk exactly when it costs at most 70% or is one file, whatever the names and whatever came before it |
| Planner.NamedFeaturesStayTogether | codereview/src/chunk.rs:263-308 | the same for any names that only targets of one feature share |
| Planner.NameTellsFile | codereview/src/chunk.rs:263-270 | a display name tells the repo and the path of a file whose repo name holds no slash |
| Assign.CapacityLeavesRoom | codereview/src/assign.rs:69-75 | any non-empty prompt within capacity leaves the output reserve free in the machine's context |
| Assign.MaxCapacityIsReached | codereview/src/assign.rs:79-86 | the review budget's maximum bounds every machine's capacity and is reached by one |
| Assign.Assign | codereview/src/assign.rs:91-136 | the loop over waiting tasks computes the round the following rows are about |
| Assign.ChoiceIsRight | codereview/src/assign.rs:98-131 | the machine chosen is allowed and the best by the source's order; a review or an ordinary check goes without exactly if no machine is allowed, one that prefers large exactly if no machine is suitable or the one it waits for is not free |
| Assign.ChoiceInFields | codereview/src/assign.rs:69-131 | by fields and numbers: who is open to a task, that a review takes the one that can do most and a check the one that can do least, and that either goes without only if none is open |
| Assign.LargeCheckWaitsForOne | codereview/src/assign.rs:109-127 | that machine is the last of the largest suitable ones, free or not |
| Assign.AssignIsSafe | codereview/src/assign.rs:91-136 | no machine is handed two tasks; none is occupied, busy, resting or too small; none runs the avoided model if another fitting machine does not |
| Assign.HandedOutToOpenMachines | codereview/src/assign.rs:91-136 | every pick's machine is listed, not busy, not resting, not occupied, has room beside 4096 tokens and reads the prompt in 900 or 180 seconds, and runs the avoided model only if all that can hold the task do |
| Assign.EachTaskOnce | codereview/src/assign.rs:91-136 | with distinct task ids every pick is a waiting task's and no task is picked twice |
| Assign.WaitsOnlyWhenNothingIsFree | codereview/src/assign.rs:91-136 | a review or an ordinary check that was passed over has no allowed machine left free at the end of the round either, and for one that prefers large the machine it waits for is not free |
| Assign.LeftWaitingForLackOfMachines | codereview/src/assign.rs:91-136 | a review or ordinary check that nobody got has no open machine that was not given away |
| Assign.RoundsClearEveryDoableTask | codereview/src/assign.rs:91-136 | with machines free at the start of each round, as many rounds as there are doable tasks clear them all and drop no other task |
| Pipeline.EveryChunkFitsSomeMachine | capabilities/review/src/run.rs:638-665 | each chunk planned with the run's budget is one oversized target or fits the review capacity of a machine of the run, instructions included |
| Assign.ChangingRoundsClear | codereview/src/assign.rs:88-136 | whatever changes between rounds of free machines, as many rounds as there are tasks hand out every task that each round had a machine for |
| Assign.DoableIffRoomAndSpeed | codereview/src/assign.rs:58-75 | a task can be done exactly if some machine has room for it in its context and is unmeasured or reads it in the time there is |
| Pipeline.PlannedRunFinishes | capabilities/review/src/run.rs:1126-1135 | a planned run without oversized targets is handed out whole in as many rounds as chunks, if the machines come back free and none with room for a review was measured too slow for it, whatever their speeds become |
| Pipeline.PlannedReviewHasRoom | capabilities/review/src/run.rs:638-665 | however speeds changed since, a planned chunk that is not oversized has room in the context of a machine of the plan |
| Pipeline.PlannedRunNeverStarves | capabilities/review/src/run.rs:1039-1129 | in any run, with the machines as they are now, a planned review that is not oversized has room in one; if one with room is unmeasured or fast enough, and while nothing runs and all are free, a round hands something out |
| ReviewRun.OneTaskAMachine | capabilities/review/src/run.rs:1039-1200 | no machine ever runs two tasks of a run, in every interleaving of rounds and results |
| ReviewRun.RoundPicksFit | capabilities/review/src/run.rs:1126-1172 | a round hands out waiting tasks, each once, to machines that run none of this run's tasks, each once |
| ReviewRun.AttemptsAreCounted | capabilities/review/src/run.rs:1347-1366 | a task's attempts are its failures and pauses, and there are at most five |
| ReviewRun.OverIsFinal | capabilities/review/src/run.rs:1039-1366 | a task that is done or given up stays so and is not handed out again |
| ReviewRun.GivenUpExactly | capabilities/review/src/run.rs:1202-1366 | a task is given up exactly by a failure that is at least its third miss, a pause that is at least its fifth, or a standstill while it waits |
| ReviewRun.FreeRoundHandsOutIff | capabilities/review/src/run.rs:1126-1172 | with nothing running and every machine free, a round hands out something exactly if some waiting task has a machine with room for it and, as measured now, time to read it |
| ReviewRun.SlowMachineStarvesAReview | capabilities/review/src/run.rs:267-276 | a run in which the first of two reviews that both fit measures the only machine, which then is too slow for the second: a round with the machine free hands out nothing, and the second is given up |
| Pipeline.HandedOutFitsContext | codereview/src/assign.rs:56-136 | whatever is handed out belongs to a waiting task and, with the output reserve, fits the machine's context |
| ExtractJson.MatchEnd | codereview/src/parse.rs:17-44 | the depth and string state find the end of the span, and find none only if there is no such end |
| ExtractJson.ExtractJson | codereview/src/parse.rs:11-50 | the value at the earliest opening whose matched span parses, and none only if there is no such opening |
| ExtractJson.SpanIsUnique | codereview/src/parse.rs:22-42 | an opening has at most one matching end |
| ExtractJson.JsonIsNeutral | codereview/src/parse.rs:22-42 | any printed JSON value, strings with brackets, quotes and escapes included, leaves depth and string state as they were and never goes below them |
| ExtractJson.JsonIsOneSpan | codereview/src/parse.rs:11-50 | a printed array or object between any two texts is exactly one matched span |
| ExtractJson.ExtractsFirstAccepted | codereview/src/parse.rs:11-50 | prose may hold brackets, as long as none of them starts a span that parses: the written value is returned |
| ExtractJson.ExtractsWhatWasWritten | codereview/src/parse.rs:11-50 | after prose without the opening bracket and before any rest, the written value is returned |
| LocateQuote.Locate | codereview/src/check.rs:16-55 | the answer is the accepted line nearest the reported one, the earlier of two, and none for short quotes or if no line is accepted |
| LocateQuote.Gather | codereview/src/check.rs:31-46 | the window is the squashed lines joined until they reach the byte limit |
| LocateQuote.LocatedIsThere | codereview/src/check.rs:12-55 | sound: the file from the returned line on, squashed as a whole, contains the squashed quote |
| LocateQuote.EarlyQuoteIsInWindow | codereview/src/check.rs:31-46 | a quote that starts within the first line's length plus 200 bytes is not lost to the cut-off |
| LocateQuote.WholeLinesAreFound | codereview/src/check.rs:12-55 | complete: a quote of eight bytes or more that stands as whole lines is found, no farther from the reported line than where it stands |
| LocateQuote.FoundIffInReach | codereview/src/check.rs:12-55 | every quote of eight bytes or more is found exactly if a line holds its first non-blank line and the quote stands in the joined lines from there before the window is full |
| LocateQuote.NoneIsNearer | codereview/src/check.rs:47-52 | no line in reach stands between the answer and its mirror image at the reported line, nor in front of it as near |
| LocateQuote.FirstLineIsNotBlank | codereview/src/check.rs:22-23 | the first line is the quote's first with anything on it, squashed |
| LocateQuote.ShortQuotesAreLost | codereview/src/check.rs:17-21 | a quote of fewer than eight squashed bytes is not found |
| LocateQuote.OneLineQuoteNeedsOneLine | codereview/src/check.rs:12-55 | a quote with one non-blank line is found exactly if one line of the file holds it |
| LocateQuote.RewrappedQuoteIsLost | codereview/src/check.rs:12-15 | a file and a quote that squash to the same text, and the quote is not found |
| LocateQuote.LongLineHidesQuote | codereview/src/check.rs:31-46 | a quote that stands in the file character by character, and is not found because its first line ends a long line |
| Text.SquashOfConcat | codereview/src/check.rs:8-10 | squashing two texts with white space between them is joining their squashed forms, an empty one left out |
| Text.WhiteIsListed | codereview/src/check.rs:8-10 | white space is the characters with the Unicode property White_Space |
| Text.LinesOfLine | codereview/src/check.rs:22-22 | lines are cut at newlines, with a carriage return in front or not |
| Text.LessIffDiffers | codereview/src/chunk.rs:263-270 | names are ordered by the first character that differs, a prefix first |
| Dedupe.Dedupe | codereview/src/dedupe.rs:23-54 | merging in place and sorting compute the report of the next rows |
| Dedupe.MergeAllTracks | codereview/src/dedupe.rs:23-42 | each entry gathers the findings that joined its founder: their worst severity, exactly their reviewers, one of their scenarios and none longer, one of their patches if any has one, all else from the founder |
| Dedupe.ReportIsApartAndSorted | codereview/src/dedupe.rs:13-54 | no two reported findings are the same bug, and the report is strictly sorted by its key, although the relation is not transitive |
| Dedupe.NothingIsLost | codereview/src/dedupe.rs:23-54 | every input has a reported finding that is the same bug, at least as severe, with all its reviewers, a scenario no shorter, and a patch if it had one |
| Dedupe.NothingIsInvented | codereview/src/dedupe.rs:23-54 | every reported finding and each of its reviewers stems from the input |
| Dedupe.DedupeIsIdempotent | codereview/src/dedupe.rs:23-54 | deduplicating a report changes nothing |
| Dedupe.ReportStandsForFindings | codereview/src/dedupe.rs:13-42 | by fields: each entry stands for findings that agree with it: it is the earliest of them, but high exactly if one is and low exactly if all are, with exactly their reviewers, the first of their longest scenarios, and their first patch |
| Dedupe.ReportReadsInOrder | codereview/src/dedupe.rs:43-53 | bugs, tests, refactors, improvements, ideas; in each high, medium, low; then repo, path and line; no two entries agree |
| Dedupe.ResultDependsOnOrder | codereview/src/dedupe.rs:13-42 | the relation is not transitive: three findings give one or two entries depending on their order |
| CapSuggestions.CapSuggestions | codereview/src/dedupe.rs:59-85 | the kept findings are an order-preserving choice of exactly those not left out, with the number left out |
| CapSuggestions.BugsAndRejectedStay | codereview/src/dedupe.rs:59-85 | bugs and rejected findings are never left out |
| CapSuggestions.OrderedExactly | codereview/src/dedupe.rs:62-72 | a kind's unrejected findings, all of them, by rank and then by position |
| CapSuggestions.WorstAreLeftOut | codereview/src/dedupe.rs:59-85 | whatever is left out is ranked after everything of its kind that stays, or equal and later |
| CapSuggestions.ExactlyTheCapStays | codereview/src/dedupe.rs:59-85 | of each kind the smaller of its cap and its count stays |
| CapSuggestions.LeftOutIsCounted | codereview/src/dedupe.rs:76-84 | kept and left out add up to the input |
| CapSuggestions.CappingIsIdempotent | codereview/src/dedupe.rs:59-85 | capping again keeps everything and counts none |
| CapSuggestions.WorstVerdictsAreLeftOut | codereview/src/dedupe.rs:59-75 | confirmed suggestions stay before unsure ones, those before unchecked ones, earlier before later |
| CapSuggestions.ThreeStayOrTwo | codereview/src/lib.rs:144-152 | three tests, refactors and improvements stay at most, two ideas, and every bug |
| CapSuggestions.KeptInOrder | codereview/src/dedupe.rs:77-84 | what stays are the findings at the marked positions, in their order |
| Pending.RunKeepsInv | coordinator/src/inference.rs:157-191 | every interleaving of registering, sending, replying, disconnecting, timing out and giving up keeps each request's sender in exactly one place |
| Pending.EndedRequestsLeaveTheMap | coordinator/src/inference.rs:157-191 | the pending map never holds a request that ended |
| Pending.OnlyAbandonedLinger | coordinator/src/inference.rs:157-191 | a request whose caller does not give up is in the map only while it is live |
| Pending.LingersExactly | coordinator/src/inference.rs:157-191 | the map holds an id that is not live exactly if its caller gave up while the entry was there and it was not collected since |
| Pending.AbandonedEntryStaysUntilCollected | coordinator/src/server.rs:391-407 | the entry of a caller that gave up is in the map exactly until its reply is read or its node is lost |
| Pending.AbandonedEntryExists | coordinator/src/http/api/art.rs:285-312 | a run of three steps that leaves such an entry |
| Pending.OutcomesAreFinal | coordinator/src/inference.rs:170-191 | a request ends with exactly one outcome, which never changes |
| Pending.LiveRequestsCanEnd | coordinator/src/inference.rs:161-191 | after any run, three steps of its own at most, time among them, end a live request and take it out of the map |
| Pending.TimesOutAfterItsLimit | coordinator/src/inference.rs:170-191 | a request times out no sooner than its limit after it was sent |
| Pending.NothingLeaks | coordinator/src/audio.rs:340-377 | when all requests ended the map is empty |
| Pending.RepliesComeFromTheWire | coordinator/src/server.rs:1072-1091 | every reply held, queued or received was read off a connection before |
| Pending.RepliesReachTheirRequest | coordinator/src/inference.rs:170-191 | a reply outcome names its own request; no waiting request finds its channel closed, although senders are dropped on failure and timeout; a request timed out exactly if its node was told to stop |
| Pending.EndsForItsReason | coordinator/src/inference.rs:161-191 | each outcome comes from its own cause: what was received, a closed channel, a failed send, or the limit |
| WorkRouter.NoneIsLarger | coordinator/src/work_router.rs:180-188 | the candidate chosen by `max_by` is beaten by none |
| WorkRouter.ControlPickIsBest | coordinator/src/work_router.rs:165-218 | a home command gets a usable machine of the lowest load class there is, the largest of those, and none only if none is usable |
| WorkRouter.HomePickInFields | coordinator/src/work_router.rs:51-63 | by the requests in flight and the role lists: who may answer, who is preferred, that the largest model wins and the first name of equals, and what is paused |
| WorkRouter.PickFreesItsMachine | coordinator/src/work_router.rs:202-237 | once the picked work is paused the machine is idle, unless every usable machine is answering a home command |
| WorkRouter.WorkPickIsBest | coordinator/src/work_router.rs:239-267 | review work gets the largest machine that is idle, not resting and has a work model, and none only if there is none |
| WorkRouter.WorkPickInFields | coordinator/src/work_router.rs:239-267 | the same for review work, with rest and the filters |
| WorkRouter.WorkState.PickAndClaim | coordinator/src/inference.rs:378-394 | under one lock a review request picks the machine of the specification and claims it: it was idle before, and its only review work is this request after |
| WorkRouter.WorkState.PickAndPause | coordinator/src/inference.rs:45-55 | under one lock a home command picks its machine and pauses the review work in its way, each request once; none is left there unless the machine already answers another home command |
| WorkRouter.PickLeavesNoWork | coordinator/src/work_router.rs:190-217 | after a home pick and its pauses, review work is on the picked machine only beside another home command |
| WorkRouter.WorkState.Preempt | coordinator/src/work_router.rs:222-235 | forgets the listed requests, rests the machine if any was in flight, and reports each one that was, once |
| WorkRuns.RunKeepsInv | coordinator/src/inference.rs:345-493 | every interleaving of picks, pauses, streams, disconnects and ends keeps claims, stream entries and phases in step |
| WorkRuns.OneReviewAMachine | coordinator/src/inference.rs:378-394 | no machine ever has two review requests in flight |
| WorkRuns.NothingIsLeftBehind | coordinator/src/inference.rs:403-493 | a review request that is over holds neither a machine nor a stream entry, and one still running holds its machine unless it was paused |
| WorkRuns.AnsweredOnce | coordinator/src/inference.rs:443-493 | a review request's outcome never changes |
| WorkRuns.StreamingEndsByItself | coordinator/src/inference.rs:443-489 | after any run, a streaming request is answered by its own reading and waiting alone, in at most two steps more than the messages it has waiting |
| WorkRuns.TimesOutInSilence | coordinator/src/inference.rs:440-487 | a request times out only three minutes after it last read anything, and twenty after it was sent if it read nothing |
| WorkRuns.FinishedIsItsOwn | coordinator/src/inference.rs:459-464 | the output a request is finished with was reported for that request, without an error |
| WorkRuns.StreamsKeepOrder | coordinator/src/server.rs:1092-1128 | while there is room, a request reads everything that is sent to it, once and in order |
| WorkRuns.FullStreamsAreStopped | coordinator/src/server.rs:1102-1127 | a chunk for a full or deaf stream is dropped, its entry removed and its machine told to stop |
| WorkRuns.EndsForItsReason | coordinator/src/inference.rs:430-489 | each outcome comes from its own cause: a pause, a message read, a stream closed with nothing left, silence, or no machine |
| WorkRuns.PreemptedForAReason | coordinator/src/inference.rs:450-458 | work is reported preempted only if a home command paused it for which every usable machine was busy |
| WorkRuns.RestIsHonoured | coordinator/src/work_router.rs:222-267 | after a pause no review work starts on that machine for thirty seconds |
| WorkRuns.SharingNeedsACut | coordinator/src/inference.rs:45-70 | where a home command and review work share a machine, that work's own pick of it fell between a home command's pick of that machine and its claim |
| WorkRuns.SharesIffWorkCutIn | coordinator/src/inference.rs:45-155 | a home command begins beside review work exactly if that work is still in flight and its pick had cut in on that machine |
| WorkRuns.CutLeadsToSharing | coordinator/src/inference.rs:144-155 | work that cut in is beside the home command it cut in on when that begins, exactly if it is still in flight |
| WorkRuns.WorkCanCutIn | coordinator/src/inference.rs:144-155 | a run in which exactly that happens |
| Hub.FindTable | agentwatch/src/hub.rs:99-121 | the loop over lines finds the first table under the heading |
| Hub.TableIsFirstRun | agentwatch/src/hub.rs:97-121 | the table is the first unbroken run of bar lines between the first heading with those letters, up to case, and the next heading; there is none exactly if there is no such heading or run |
| Hub.SetReply | agentwatch/src/hub.rs:66-95 | the new file, or the error, of the specification below |
| Hub.CellsBetweenBars | agentwatch/src/hub.rs:123-129 | a line's cells are what stands between its bars, trimmed |
| Hub.SeparatorsAre | agentwatch/src/hub.rs:131-136 | a separator has dashes and colons in every cell |
| Hub.RowsAreLines | agentwatch/src/hub.rs:28-50 | a row is a line of the table, not its first and no separator, numbered by its first cell and replied to in its last |
| Hub.LinesAreRows | agentwatch/src/hub.rs:28-50 | every such line is a row, in the order of the file |
| Hub.RepliesToFirstRow | agentwatch/src/hub.rs:66-80 | the reply goes to the first row with that number; bad text and a missing row are refused, and nothing else is |
| Hub.RewrittenReadsBack | agentwatch/src/hub.rs:81-84 | the rewritten line is a table line with the same parts but the last |
| Hub.RewrittenLosesMargins | agentwatch/src/hub.rs:81-95 | it starts with its bar, has no carriage return, and depends on nothing that stood around the row |
| Hub.WrittenLines | agentwatch/src/hub.rs:81-95 | exactly one line of the file changes |
| Hub.RowsAfterReply | agentwatch/src/hub.rs:29-95 | unless the new line reads as a separator, reading gives the same rows in order but for that row |
| Hub.ReplyChangesOneCell | agentwatch/src/hub.rs:29-136 | only that row's reply changes, exactly if the reply does not replace the number by another text and the row does not become a separator |
| Hub.LostRow | agentwatch/src/hub.rs:131-136 | a row that becomes a separator is lost to readers |
| Hub.DashReplyLosesItsRow | agentwatch/src/hub.rs:66-136 | a hub of one row numbered by a dash, which replying with a dash empties |
| Hub.LastReplyWins | agentwatch/src/hub.rs:66-95 | a second reply gives the same file as writing it directly |
| RoomSinks.RoundTripIffClean | coordinator/src/audio.rs:160-184 | parsing a rendered sink gives it back exactly for clean names |
| RoomSinks.ListRoundTripIffClean | coordinator/src/audio.rs:160-207 | the same for whole lists, where commas matter too |
| RoomSinks.StoredForm | coordinator/src/audio.rs:125-184 | what is stored for a sink and its role, letter by letter |
| RoomSinks.OlderForms | coordinator/src/audio.rs:133-176 | an entry without a role, or with one not known, serves every purpose |
| RoomSinks.Registry.AddRoomSink | coordinator/src/audio.rs:245-275 | finds or appends the entry in place and stores the rendered list |
| RoomSinks.Registry.RemoveRoomSink | coordinator/src/audio.rs:280-305 | drops the entry and deletes the preference when none is left |
| RoomSinks.KeysAreDistinct | coordinator/src/audio.rs:197-199 | two rooms never share a preference |
| RoomSinks.AddDisturbsNoOther | coordinator/src/audio.rs:239-275 | every other sink of the room keeps its place and its role, whatever is added; what does not read back as itself is behind them |
| RoomSinks.AddRefinesIffClean | coordinator/src/audio.rs:239-275 | adding through the string store is an upsert of the list exactly for clean entries |
| RoomSinks.RemoveRefines | coordinator/src/audio.rs:277-305 | removing through the store is removal from the list for any names, and the preference stays exactly if something is left |
| RoomSinks.OtherRoomsUntouched | coordinator/src/audio.rs:239-305 | neither operation changes another room |
| RoomSinks.UpsertIsMapUpdate | coordinator/src/audio.rs:260-267 | an upsert is a map update: keys stay unique and in order, only that role changes |
| RoomSinks.RemoveIsMapDelete | coordinator/src/audio.rs:287-293 | a removal deletes that key and no other |
| RoomSinks.RunsRefineOrderedMap | coordinator/src/audio.rs:239-305 | any run of clean adds and of removes is an insertion-ordered map with unique keys, absent exactly when empty |
| HereDoc.Tag | agentterm/src/host.rs:164-169 | the search ends, with the first marker that occurs in none of the texts |
| HereDoc.LargeMarkersAvoid | agentterm/src/host.rs:164-169 | a marker that occurs in a text has a number below ten to the longest text's length, so the search ends |
| HereDoc.MarkersAreNumbered | agentterm/src/host.rs:164-169 | a marker is the word and its number in decimal digits |
| HereDoc.ReadsBackIffNoMarkerLine | agentterm/src/host.rs:202-207 | reading a quoted here-document gives the text and one newline exactly if no line of the text is the marker (section 2.7.4 of the POSIX Shell Command Language) |
| HereDoc.TaggedTextsReadBack | agentterm/src/host.rs:163-207 | with a marker in none of the texts each reads back |
| HereDoc.BothDocumentsReadBack | agentterm/src/host.rs:200-207 | settings and prompt read back one after the other with one marker |
| Costs.CostBook.RecordCost | agentterm/src/lib.rs:189-212 | adds the increase to the session and to the day, and returns the session's highest and the day's total |
| Costs.NothingIsCountedTwice | agentterm/src/lib.rs:187-212 | in any run from empty all days together equal all sessions together, and each session's total is the highest it reported |
| Costs.RepeatsAddNothing | agentterm/src/lib.rs:202-208 | repeats and restarted counts change nothing |
| Costs.DaysOnlyGrow | agentterm/src/lib.rs:202-208 | no day loses what it had |
| Costs.DaysAddTheirOwn | agentterm/src/lib.rs:199-208 | a day's total is what the reports of that day exceeded their session's highest by |
| Chords.ItemsAreQuality | chords/src/ug.rs:412-432 | the greedy reader accepts every spelling of quality items |
| Chords.ChordIffSpelled | chords/src/ug.rs:401-442 | the greedy `is_chord` accepts exactly root, accidental, quality items and an optional bass |
| Chords.ChordIffWritten | chords/src/ug.rs:398-442 | the grammar spelled out: the letters A to G, the words, digits and signs |
| Chords.FillersAre | chords/src/ug.rs:444-452 | what may stand beside chords, spelled out |
| Chords.ChordLine | chords/src/ug.rs:454-465 | the loop over words decides what the next row says |
| Chords.ChordLinesAre | chords/src/ug.rs:454-465 | a line is one of chords exactly if all its words are chords or fillers and one is a chord |
| Chords.MarkLine | chords/src/ug.rs:475-500 | the loop with its sentinel space writes the marked line |
| Chords.ParsePasted | chords/src/ug.rs:467-504 | the content of a pasted sheet, line by line, or as it is when it carries markup |
| Chords.EndingsBecomeNewlines | chords/src/ug.rs:471-471 | every carriage return in front of a newline goes, and nothing else |
| Chords.StripGivesTextBack | chords/src/ug.rs:467-504 | without carriage returns and tags, deleting the tags gives the input back less one final newline |
| Chords.ExactlyTheChordsAreWrapped | chords/src/ug.rs:454-504 | the words of a line come out in order, wrapped exactly if they are chords on a chord line |
| Schedule.LastBeforeIsLast | agentwatch/src/state.rs:90-93 | the eight-day search gives the latest scheduled time of all days, exactly unless there is one, the clocks skipped every run of the seven days before today, and today's is not past |
| Schedule.NextAfterIsNext | agentwatch/src/state.rs:95-98 | the same for the first scheduled time after now and the seven days after today |
| Schedule.WeeklyRunsOnce | agentwatch/src/state.rs:100-105 | for a weekly routine those seven days are one day, found by arithmetic |
| Schedule.EightDaysAreEnough | agentwatch/src/state.rs:90-111 | both searches find the right time wherever the clocks do not skip it on the run day of the week before, or after |
| Schedule.SkippedRunHidesTheOneBefore | agentwatch/src/state.rs:90-111 | Sundays at 01:30: six days after the clocks go forward the search finds nothing, though it ran a week earlier |

## Left out

- Text is sequences of characters with a white-space predicate and UTF-8 lengths; case folding is ASCII only.
- `import_specifiers`: the planner takes any specifiers for any file, so its theorems hold for whatever the scanner
  finds.
- `file_cost` as a bound on the rendered prompt: the code does not give it; the model prices files as the code does.
- Repo names with a slash, which the program refuses before planning: for them only `Planner.GroupsStayTogether` says
  what stays together, by the names of group roots.
- Pipeline.PlannedRunFinishes: does not model failed attempts, questions that make a run wait, or machines that stay
  busy; `ReviewRun` and `Pipeline.PlannedRunNeverStarves` do, without a bound on the number of rounds, which the code
  does not give either: a request that found no worker is tried again without counting.
- How a measured speed follows from a run's durations; the theorems hold for any speeds a round may see.
- The review run's cloud providers, its checks of files that vanished, progress reports and prompts; what a finished
  review raises is any list of tasks.
- Integer widths: token counts, line numbers and the scanner's depth are unbounded, so overflow is not modelled.
- The measured reading speed of a machine is an exact number, without rounding of floating point.
- `serde_json` is an arbitrary partial function from text to values, accepting the written value is all the theorems ask
  of it. Written values may have any white space between tokens; `Json` admits slightly more texts than the grammar
  does.
- `parse_findings`, `parse_verdict`, `normalize_patch`, `strip_diff_markers`, `excerpt`, `finding_key`: mostly field
  access and formatting.
- Costs are whole micro-dollars, not floats printed with six decimals; file names made by `slug` are the session names.
- `decode_entities`, search results and tab scoring in `ug.rs`.
- `resolve_room_sink_for`: a first match in the list the sink theorems describe.
- The task script in `agentterm/src/queue.rs` searches its marker like `tag`; its queue files are I/O.
- `WorkRouter.WorkState.Preempt`: does not model requests on several machines in one call, because a pick only pauses
  the work of its own machine.
- What a failed review request says in words: the model keeps the cause, and a machine's own words.
- Request ids are fresh in both protocols; a work id that is used again would replace its own claim.
- Home commands that stream never claim their machine in the code; in `WorkRuns` they are picks that are never begun.
- In both protocols time passes in steps of any length; which of two ready branches a select takes is open, and nothing
  forces a timeout to fire at once.
- The London time zone is any zone whose days come in order and whose times fall on their own day; `Due::parse` and the
  states of an agent in `agentwatch/src/state.rs` are left out, their branches would only be said again.
- Cloud providers; capability dispatch (`agent/src/dispatch.rs`), where one lock excludes; node choice in
  `coordinator/src/scheduler.rs`, filters and a maximum like the router's.
- Sockets, TLS, files, preferences' database and prompts: files and preferences are values and maps.
