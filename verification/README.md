# Models of the ROM pipeline server and the build viewer

Two Go programs of this repository hold real algorithms and protocols, and this
project states and proves what they keep.

`pkgs/arcade-webapp` serves a ROM collection: it verifies, scrapes and generates
launcher files for game systems.

- `Regen`, `RegenHistory` - the regeneration coordinator: any number of request handlers, one
  worker, a dirty flag, a one-token wake channel and a quiet gate. No edit is lost.
- `HeavyJobs` - the one slot and the running flags that verify, scrape and generate share.
- `Lines`, `Pegasus`, `LauncherFile`, `CustomViews`, `RoundTrip`, `LauncherLines`, `LauncherLaws`,
  `LauncherMeaning` - the launcher-file printer against its strict parser and validator, both
  ways, and what a generated file says once it is parsed.
- `Publish` - build, validate and atomic write over a disk that records all its
  states, so that a statement about them is one about every point of being killed.
- `DatLock` - the content-addressed lock of reference files, its append-only ledger
  and the gate in front of igir.
- `Stamps`, `GameTable` - string time stamps and the pruned games table.
- `VerifyReport` - counting and classifying igir's report rows.
- `DirScan`, `CacheEngine` - companion-byte accounting, the single-pass cache engine
  and the checksum fill.

`pkgs/nom-web` shows a running Nix build.

- `DepTree` - memoised contraction of the dependency graph to the planned derivations.
- `TreeView` - the breadth-first parent map and the active view drawn from it.
- `NixState`, `NixLaws`, `NixHistory`, `NixPlan`, `NixTotals` - the event state machine, its
  invariants and its refinement to the event history.
- `Fanout` - the drop-stale snapshot channels.

`Options`, `Text`, `StorePath` and `Sums` hold what these share. Where the source updates an
object, the model is a class whose methods are proved against functions on values;
the laws are lemmas about those functions. Protocols with goroutines are state
machines that take one step per critical section or channel operation.

Eight statements one might expect turned out to be false of the code; the exact
condition is proved instead.

- A rendered launcher file does not always parse back: media file names are printed
  as they are (`LauncherLaws.RoundTripsExactlyWhenClean`, `ColonInStemExample`, `LineFeedInStemRefused`).
- The final snapshot of a session can be lost, though the code's comment calls the
  replacement safe: a priming send can land between a broadcast's drain and its second
  send. Exactly then, and only for one that registered before done, a subscriber ends
  without a finished snapshot (`Fanout.BroadcastDelivers`, `FinishedExactly`,
  `LastBroadcastExactly`, `FinishedCanBeLost`); once its priming send has returned nothing
  more is lost to it (`SettledNeverLoses`, `FinishedReachesSettled`).
- A refresh can leave a reference file that the lock file does not attest, and the gate
  then refuses it: when the store refuses the info or ledger row after new bytes were
  installed, and also when everything was stored and only the lock file was not written
  (`DatLock.GateAfterRefresh`, `GateAfterRefreshOne`, `AttestationLostExample`).
- A refresh can leave the lock file behind the ledger when the lock cannot be written
  (`DatLock.RefreshedLockAgreesExactly`, `RefreshedOneAgreesExactly`, `LockFallsBehindExample`).
- A directory or file that vanishes during a scan costs its system every row, though a
  comment promises to keep the previous rows (`DirScan.BrokenWalkKeepsRowsExactly`,
  `VanishedFileExample`).
- A found file below the output is not always recorded by its path relative to the output,
  which a comment promises: two or more components deep, with a first one that begins with
  two dots, it is recorded by its base name alone, which can be another file's
  (`VerifyReport.FoundRelExactly`, `FoundRelExample`).
- With an empty output directory a report's relative paths stay empty, though a comment
  calls the found lists aligned by index (`VerifyReport.AlignedExactly`, `MisalignedExample`).
- The cache engine changes hidden games too, though a comment speaks of visible ones
  (`CacheEngine.HiddenKeptExactly`, `HiddenGameExample`).

Where the code and its comments disagree the code is followed.

## Model

| member | source | states |
|---|---|---|
| DepTree.NearestIn | pkgs/nom-web/deps.go:78-103 | Over a memo shared by all walks, terminates on every graph, cyclic or not; the result has no duplicate and only planned nodes that a path through unplanned ones reaches; on an acyclic graph it has all of them. The cycle guard is modelled: an entry is incomplete exactly while its node is on the walk |
| DepTree.AppendUnseen | pkgs/nom-web/deps.go:84-100 | The order-preserving union through the seen set |
| DepTree.ChildrenOf | pkgs/nom-web/deps.go:127-134 | Children are the positions of the nearest planned nodes other than the node itself, and each is marked as somebody's child |
| DepTree.LinkNodes | pkgs/nom-web/deps.go:124-135 | The whole loop: every node has exactly its nearest planned nodes as children, and isChild marks exactly the nodes with a parent |
| DepTree.BuildTree | pkgs/nom-web/deps.go:109-145 | Labelled, well-formed forest whose roots are the parentless nodes by name; with a graph every edge is a collapsed path, and on an acyclic graph with distinct derivations the edges are exactly those; without a graph a flat list of roots |
| DepTree.NodeNameOf | pkgs/nom-web/deps.go:113-120 | The label of a derivation is its name without hash and suffix |
| DepTree.ContractionPreservesReachability | pkgs/nom-web/deps.go:105-145 | A planned derivation is below another in the forest if and only if it is a transitive input of it in the full graph |
| DepTree.RootsHaveNoPlannedDependent | pkgs/nom-web/deps.go:105-108 | The roots are exactly the planned derivations no other planned one transitively depends on |
| DepTree.EveryNodeUnderARoot | pkgs/nom-web/deps.go:105-145 | Every node is a root or lies below one |
| TreeView.ComputeParents | pkgs/nom-web/static/app.js:97-114 | Every reached node has a parent chain to a root with the fewest edges any path has; a node is unreached exactly when no path leads to it |
| TreeView.ReachAll | pkgs/nom-web/static/app.js:105-111 | The inner loop keeps the breadth-first invariant and leaves every child of the node in the queue |
| TreeView.ReachedAtFewestEdges | pkgs/nom-web/static/app.js:93-96 | When the queue runs out no path from a root is shorter than the recorded one |
| TreeView.VisibleSet | pkgs/nom-web/static/app.js:121-129 | Visible nodes are exactly the active ones and the nodes on their parent chains; the set is closed under parents |
| TreeView.MarkChain | pkgs/nom-web/static/app.js:126 | The walk upwards stops early at a visible node without leaving a gap, and marks nothing off the chain |
| TreeView.Renderer.DrawRow | pkgs/nom-web/static/app.js:148-164 | Exactly one row is written unless the cap, the visibility test or the parent test forbids it; a repeat is marked and not descended into |
| TreeView.Renderer.Emit | pkgs/nom-web/static/app.js:148-166 | In the active view rendering a node adds exactly its visible subtree, one row per node at the depth of its chain; in the full view it leaves no child of an expanded node out unless the cap is met |
| TreeView.Renderer.EmitChildren | pkgs/nom-web/static/app.js:165 | The recursion over the children adds their subtrees, pairwise disjoint, and nothing else |
| TreeView.RenderTree | pkgs/nom-web/static/app.js:135-168 | Never more rows than the cap, one row per node that is no back-reference, and every back-reference after it; read from the top, the indentation is that of the forest, siblings in its order; below the cap the full view shows every node reached from a root, and the active view has exactly one row for each shown node, at its distance from the root |
| TreeView.ContractedForestIsReached | pkgs/nom-web/static/app.js:93-114 | On a forest contracted from an acyclic graph every node is reached from a root |
| TreeView.ActiveDerivationIsShown | pkgs/nom-web/static/app.js:116-129 | so every active derivation is shown in the active view |
| Regen.Coordinator.RequestLocked | pkgs/arcade-webapp/internal/web/generate.go:153-160 | The locked part of a request: dirty, stamped, origin recorded |
| Regen.Coordinator.Claim | pkgs/arcade-webapp/internal/web/generate.go:183-190 | Clears dirty and opens a pass exactly when dirty was set |
| Regen.Coordinator.GateOpen | pkgs/arcade-webapp/internal/web/generate.go:202-210 | Quiet exactly when the window has passed since the last request |
| Regen.Coordinator.TakeOrigins | pkgs/arcade-webapp/internal/web/generate.go:212-219 | Hands over the origins and the deferral flag of the episode |
| Regen.Coordinator.Requeue | pkgs/arcade-webapp/internal/web/generate.go:261-271 | Dirty again, with the origins still awaiting their pass merged back |
| Regen.Coordinator.Complete | pkgs/arcade-webapp/internal/web/generate.go:240-246 | Deferral episode and pass end together |
| Regen.StepKeepsInv | pkgs/arcade-webapp/internal/web/generate.go:148-280 | Every critical section and channel operation, in any interleaving with manual passes and other jobs, keeps the invariant: dirty implies a wake token, a request between unlock and send, or a worker that will test dirty again |
| Regen.NoEditLost | pkgs/arcade-webapp/internal/web/generate.go:148-249 | No edit is lost: with a generator configured, in every reachable state with no request in flight, no token and a parked worker, the last pass that returned without error read its options after every stored mutation |
| Regen.OutstandingWorkCanProceed | pkgs/arcade-webapp/internal/web/generate.go:148-280 | From every reachable state with a generator configured, some finite run in which nothing new arrives and nothing fails ends with the last good pass having read every stored mutation: no deadlock, and no state from which an edit can no longer be covered |
| Regen.RowsSeparatedByGeneration | pkgs/arcade-webapp/internal/web/generate.go:221-247 | Two deferral rows always have a completed generation between them |
| Regen.BurstCostsAtMostTwo | pkgs/arcade-webapp/internal/web/generate.go:136-143 | A burst that finds the worker parked and nothing dirty costs at most two generations; a burst is a run in which, by the clock alone, no request is locked a window or more after the one before |
| RegenHistory.GatePassesExactly | pkgs/arcade-webapp/internal/web/generate.go:202-210 | In every run the gate passes a poll if and only if the window has gone by since the last request, or since the start when there was none |
| RegenHistory.PassFlagExactly | pkgs/arcade-webapp/internal/web/generate.go:183-200 | In every run the pass flag is set if and only if the worker is inside a pass, and with neither flag set the last good pass has read everything requested |
| RegenHistory.RowWrittenExactly | pkgs/arcade-webapp/internal/web/generate.go:221-232 | In every run a busy attempt goes on to write a deferral row if and only if none was marked since the last completed generation |
| RegenHistory.OriginsExactly | pkgs/arcade-webapp/internal/web/generate.go:153-271 | In every run an origin is recorded, or carried by the attempt in progress, if and only if a request for it still awaits a pass |
| HeavyJobs.Generator.Claim | pkgs/arcade-webapp/internal/generate/generate.go:219-237 | Takes flag and slot, or fails holding neither |
| HeavyJobs.Generator.Release | pkgs/arcade-webapp/internal/generate/generate.go:240-247 | Frees both |
| HeavyJobs.Generator.GenerateFresh | pkgs/arcade-webapp/internal/generate/generate.go:205-215 | Leaves both locks as found on every path; busy exactly when either was held; renders the version read under both locks only when it succeeds |
| HeavyJobs.VerifyRunner.Verify | pkgs/arcade-webapp/internal/igir/runner.go:221-256 | Leaves slot and flag as found on every path; busy exactly when either was held |
| HeavyJobs.ScrapeDriver.Start | pkgs/arcade-webapp/internal/scrape/scrape.go:265-326 | Holds both locks exactly when the background job was launched, else leaves both as found |
| HeavyJobs.ScrapeDriver.Finish | pkgs/arcade-webapp/internal/scrape/scrape.go:296-299 | The deferred calls free both |
| HeavyJobs.StepKeepsInv | pkgs/arcade-webapp/internal/generate/generate.go:219-247 | In any interleaving of verify, scrape, generate and slot probes each lock is held by exactly the call whose position says so |
| HeavyJobs.OneHeavyJob | pkgs/arcade-webapp/internal/pipeline/pipeline.go:1-13 | At most one call is inside the slot |
| HeavyJobs.OnlyTheHolderReleases | pkgs/arcade-webapp/internal/pipeline/pipeline.go:30-34 | A lock is only released by the call that holds it |
| HeavyJobs.EveryExitReleases | pkgs/arcade-webapp/internal/igir/runner.go:227-230 | When every call is over, refused or not, all locks are free |
| HeavyJobs.VerifyFlagNeverContended | pkgs/arcade-webapp/internal/igir/runner.go:248-256 | Holding the slot, verifyLocked never finds its own flag set |
| HeavyJobs.RefusalLeavesLocksAsFound | pkgs/arcade-webapp/internal/web/verify.go:472-482 | A refusal changes no lock but the flag the refused call itself had taken |
| HeavyJobs.RenderingNeverGoesBack | pkgs/arcade-webapp/internal/generate/generate.go:198-215 | Successive fresh passes never render older options after newer ones |
| HeavyJobs.TurnedAwayExactly | pkgs/arcade-webapp/internal/generate/generate.go:219-237 | A call is turned away if and only if another call holds the lock it tries |
| HeavyJobs.AloneFinishes | pkgs/arcade-webapp/internal/generate/generate.go:205-247 | From every state in which the others are over, a call that was not turned away finishes when nothing fails, and a pass that has not read its options yet leaves the newest version rendered |
| HeavyJobs.EditsBeforeTheClaimAreRendered | pkgs/arcade-webapp/internal/generate/generate.go:198-215 | Every edit stored before a pass took the slot is rendered once that pass succeeds, and stays rendered, whatever runs beside and after it |
| Lines.SanitizeValue | pkgs/arcade-webapp/internal/generate/generate.go:605-622 | The loop computes the cleaned, joined parts |
| Lines.SanitizedIsClean | pkgs/arcade-webapp/internal/generate/generate.go:601-604 | No control character and no outer space survives |
| Lines.SanitizeFixesCleanValues | pkgs/arcade-webapp/internal/generate/generate.go:601-604 | A value is left alone if and only if it is clean already; sanitising is idempotent |
| Lines.SanitizedLines | pkgs/arcade-webapp/internal/generate/generate.go:605-622 | Clean lines with any padding, joined by LF, CR or CRLF, become the lines joined by a semicolon and a space |
| Lines.ControlGoes | pkgs/arcade-webapp/internal/generate/generate.go:610-615 | Within a line a control character counts for nothing, wherever it is |
| Pegasus.Parse | pkgs/arcade-webapp/internal/pegasus/pegasus.go:73-183 | The line loop computes the file the line-by-line definition gives, or its error line |
| Pegasus.Assign | pkgs/arcade-webapp/internal/pegasus/pegasus.go:112-174 | One property line: same branches, same refusals, same bookkeeping of repeated fields |
| Pegasus.ColonlessLineRefused | pkgs/arcade-webapp/internal/pegasus/pegasus.go:105-108 | One colon-less line anywhere makes the whole file unparseable |
| Pegasus.LineRefusedExactly | pkgs/arcade-webapp/internal/pegasus/pegasus.go:95-155 | A line is refused if and only if it has content, is no comment, and is indented, has no colon, or is a header or game property where none may be |
| Pegasus.RefusedAtFirst | pkgs/arcade-webapp/internal/pegasus/pegasus.go:73-183 | Parsing fails exactly at the first refused line, with its number, and else succeeds |
| Pegasus.FieldsExactly | pkgs/arcade-webapp/internal/pegasus/pegasus.go:156-174 | A game has each field's last value, and of a repeated field all values in order; outside a game fields are ignored |
| Pegasus.Validate | pkgs/arcade-webapp/internal/pegasus/pegasus.go:200-228 | Accepts if and only if there is a collection, shortnames are distinct, listed games are launchable or pending, and within a collection files are present and distinct |
| Pegasus.ValidateGames | pkgs/arcade-webapp/internal/pegasus/pegasus.go:213-222 | Accepts if and only if every game has a file and no file occurs twice |
| LauncherFile.MediaAssets | pkgs/arcade-webapp/internal/generate/generate.go:672-699 | The references are exactly the alphabetically first file of each stem, each stem once, in path order |
| LauncherFile.FirstOccurrences | pkgs/arcade-webapp/internal/generate/generate.go:685-697 | The positions kept are exactly the first occurrences, in order |
| LauncherFile.TitleOfFile | pkgs/arcade-webapp/internal/generate/generate.go:551-556 | The title of dir/stem.ext is the sanitised stem, or the sanitised file name when that is empty |
| LauncherFile.GameBlock | pkgs/arcade-webapp/internal/generate/generate.go:551-576 | The block of a game line by line |
| LauncherFile.Assemble | pkgs/arcade-webapp/internal/generate/generate.go:582-599 | The bytes are the lines of header, blocks and sections with one blank line before each |
| LauncherFile.BlockAt | pkgs/arcade-webapp/internal/generate/generate.go:582-599 | Every block stands whole behind one blank line, and nothing else is printed |
| LauncherFile.SplitByCompleteness | pkgs/arcade-webapp/internal/generate/generate.go:488-501 | Main and pending blocks are those of the playable and of the other games, in order |
| LauncherFile.MemberBlocks | pkgs/arcade-webapp/internal/generate/generate.go:523-528 | The blocks listed are those at increasing positions, which are exactly those of the playable games the collection names |
| LauncherFile.SelectExactly | pkgs/arcade-webapp/internal/generate/generate.go:488-528 | By position, main lists exactly the playable games, pending the others, and a custom collection the playable ones it names |
| LauncherFile.RenderCustoms | pkgs/arcade-webapp/internal/generate/generate.go:522-543 | One section per populated custom collection, none for the others |
| LauncherFile.RenderSystem | pkgs/arcade-webapp/internal/generate/generate.go:465-546 | The bytes are the printed system, or none when no launch command is mapped; the two counts add up to the games |
| LauncherFile.MainAndPendingPartition | pkgs/arcade-webapp/internal/generate/generate.go:490-501 | Every game is in exactly one of main and pending |
| CustomViews.GroupMembers | pkgs/arcade-webapp/internal/generate/generate.go:432-440 | A collection's paths by system |
| CustomViews.CustomViewsBySystem | pkgs/arcade-webapp/internal/generate/generate.go:429-452 | Every system with a member has one view per such collection, sorted by shortname, and no other system has any |
| CustomViews.ViewsForExactly | pkgs/arcade-webapp/internal/generate/generate.go:429-443 | A system's views are those of the collections with a member there, each with its own texts and exactly its paths there |
| CustomViews.ViewOrderIsUnique | pkgs/arcade-webapp/internal/generate/generate.go:426-428 | With unique shortnames the order, hence the output, does not depend on the sort's tie-breaking |
| RoundTrip.BlockParsed | pkgs/arcade-webapp/internal/generate/generate.go:551-576 | Parsing a printed game block gives back its title, file, fields and assets |
| RoundTrip.PendingHeaderRead | pkgs/arcade-webapp/internal/generate/generate.go:503-508 | Parsing the pending header gives back its collection; an empty collection name loses its leading space |
| RoundTrip.CustomsRead | pkgs/arcade-webapp/internal/generate/generate.go:522-543 | Parsing the custom sections gives back the populated custom collections in order |
| LauncherLaws.CleanSystemRoundTrips | pkgs/arcade-webapp/internal/generate/generate.go:465-546 | Parsing a rendered system gives back main, pending and custom collections in order |
| LauncherLaws.ParsedIsClean | pkgs/arcade-webapp/internal/pegasus/pegasus.go:95-110 | Whatever its input, the parser never returns a shortname, launch line or asset that is not clean |
| LauncherLaws.RoundTripsExactlyWhenClean | pkgs/arcade-webapp/internal/generate/generate.go:465-622 | The round trip holds if and only if everything printed unsanitised is clean: key, launch command, populated shortnames, asset names |
| LauncherMeaning.MainAndPendingParsed | pkgs/arcade-webapp/internal/generate/generate.go:465-520 | A parsed clean file, in terms of the games alone: the system's collection with its launch line and exactly the playable games in order, each with its own title, file, fields and artwork, then the pending one with exactly the others |
| LauncherMeaning.CustomIsParsed | pkgs/arcade-webapp/internal/generate/generate.go:522-543 | Every custom collection with a playable member here has its collection in the parsed file, listing exactly those members in order |
| LauncherMeaning.ParsedIsCustom | pkgs/arcade-webapp/internal/generate/generate.go:522-543 | and every other collection of the parsed file is such a one |
| LauncherLaws.ColonInStemExample | pkgs/arcade-webapp/internal/generate/generate.go:572-574 | A concrete system does not parse back: one media file named cover:front.png, which mediaAssets does list |
| LauncherLaws.LineFeedInStemRefused | pkgs/arcade-webapp/internal/generate/generate.go:572-574 | A media file whose stem has a line feed before any colon makes its whole system's file unparseable, for media names are not sanitised |
| LauncherLaws.ValidExactlyWhenDistinct | pkgs/arcade-webapp/internal/pegasus/pegasus.go:185-228 | The validator accepts the re-read system if and only if sanitised paths are non-empty and distinct and the shortnames clash neither with each other nor with the system's own |
| Publish.WriteAtomic | pkgs/arcade-webapp/internal/generate/generate.go:769-803 | At every state in between the target holds its old bytes or the complete new ones and nothing else but a temporary sibling changes; it succeeds if and only if no step fails and the name is unused, and a failure whose temporary was removed leaves the disk as it was |
| Publish.SweepStaleTemps | pkgs/arcade-webapp/internal/generate/generate.go:731-759 | Removes exactly the regular stale temporary siblings of other processes in these directories, but for removals that fail |
| Publish.TempOwnerExactly | pkgs/arcade-webapp/internal/generate/generate.go:709-718 | The process number in a temporary name is read back, and a name without one belongs to no process |
| Publish.ReclaimedExactly | pkgs/arcade-webapp/internal/generate/generate.go:731-759 | Of the temporary names this program gives, those of other processes are reclaimed once stale; its own never are |
| Publish.BuildPhase | pkgs/arcade-webapp/internal/generate/generate.go:274-313 | Skips eXo-sourced and empty systems, records failures, renders the others |
| Publish.BuildExactly | pkgs/arcade-webapp/internal/generate/generate.go:275-313 | When a system is skipped, refused or built: eXo-sourced or empty; unreadable games, no directory or no launch command; else its rendered bytes |
| Publish.ValidatePhase | pkgs/arcade-webapp/internal/generate/generate.go:318-333 | Lets through exactly the payloads parser and validator accept |
| Publish.WritePhase | pkgs/arcade-webapp/internal/generate/generate.go:336-350 | Every state is a published one; a system is reported generated if and only if no step of its write fails; each generated outcome's bytes are on disk at the end |
| Publish.Run | pkgs/arcade-webapp/internal/generate/generate.go:251-370 | At every state of a pass, hence at every kill point, each target holds its pre-run bytes or a complete accepted payload for it; what is generated and what is left behind follow from the failing steps; a dry run changes nothing |
| Publish.Generate | pkgs/arcade-webapp/internal/generate/generate.go:251-370 | The pass run on the store's rows, the media directories and the options' collections: its sources carry exactly the artwork mediaAssets finds, its custom views are the sorted projections, and Run's promises hold of them |
| Publish.UnwrittenTargetUntouched | pkgs/arcade-webapp/internal/generate/generate.go:274-350 | With a directory for each system, one that is skipped or refused, or whose bytes the parser or validator rejects, keeps its target through every state of a pass |
| Publish.WriteablesAreAccepted | pkgs/arcade-webapp/internal/generate/generate.go:318-333 | Everything handed to the write phase is a built payload that was accepted |
| Publish.PassingIsWritten | pkgs/arcade-webapp/internal/generate/generate.go:318-333 | and every built payload that is accepted is handed to it |
| Publish.RefusedExactly | pkgs/arcade-webapp/internal/generate/generate.go:274-313 | The failures of the build phase are exactly the refused systems |
| Publish.RejectedExactly | pkgs/arcade-webapp/internal/generate/generate.go:318-333 | and those of the validate phase exactly the payloads parser or validator reject |
| Publish.GeneratedRoundTripsExactly | pkgs/arcade-webapp/internal/generate/generate.go:551-580 | Whatever the media directories hold, a system's generated bytes parse back to its collections if and only if its unsanitised inputs are clean; no assumption on stems is left |
| Publish.CleanSystemAcceptedExactly | pkgs/arcade-webapp/internal/generate/generate.go:319-332 | For clean inputs a built system is accepted if and only if its paths and shortnames are usable |
| Publish.PayloadsAreBuilt | pkgs/arcade-webapp/internal/generate/generate.go:275-285 | Nothing is built for an eXo-sourced system |
| NixState.Run.NoteDrv | pkgs/nom-web/parser.go:244-266 | Registers a derivation once and poisons a shared name |
| NixState.Run.AttachTransfer | pkgs/nom-web/parser.go:275-289 | Attaches a copy to the only derivation of that name, or to none |
| NixState.Run.ApplyStart | pkgs/nom-web/parser.go:331-382 | The effect of a start event |
| NixState.Run.ApplyStop | pkgs/nom-web/parser.go:384-410 | The effect of a stop event |
| NixState.Run.Unexpect | pkgs/nom-web/parser.go:406-408 | The loop over the activity's expectations |
| NixState.Run.ApplyResult | pkgs/nom-web/parser.go:412-479 | The effect of progress and expectation reports, with 64-bit wrap-around |
| NixState.Run.ApplyMessage | pkgs/nom-web/parser.go:492-502 | The planned listing: opened by its header, extended by store derivations, closed by anything else |
| NixPlan.KnownExactly | pkgs/nom-web/parser.go:492-502 | After any stream a derivation is known if and only if an event named it: the start of a build of its path, or a message inside a listing whose trimmed text is its store path |
| NixPlan.KnownInOrder | pkgs/nom-web/parser.go:244-266 | and the known derivations stand in the order in which events first named them |
| NixState.Run.Apply | pkgs/nom-web/parser.go:326-504 | One event, and no stored index ever goes out of range |
| NixState.Run.Aggregate | pkgs/nom-web/snapshot.go:70-91 | The loop in any order of the active ids gives the stopped counts plus the live ones modulo 2^64 |
| NixState.Run.EncodeDrvStates | pkgs/nom-web/snapshot.go:157-163 | One state byte per derivation |
| NixLaws.StepKeepsInv | pkgs/nom-web/parser.go:191-504 | Every event with a fresh start id keeps: drvIndex inverts drvs; a name maps to its only derivation or to -1 when shared; each derivation's counters are the numbers of active build and other activities attached to it; each type's active set and expectation (modulo 2^64) are those of the active activities |
| NixLaws.NotedKeepsNames | pkgs/nom-web/parser.go:253-264 | The name index under registration of another derivation |
| NixLaws.StopKeepsTracks | pkgs/nom-web/parser.go:389-402 | A stop lowers exactly the counter of the derivation it was attached to |
| NixLaws.SetExpectedKeepsExpected | pkgs/nom-web/parser.go:458-471 | An expectation report replaces the activity's earlier one in the sum |
| NixHistory.StreamKeepsInv | pkgs/nom-web/parser.go:326-504 | After any stream with fresh ids every active activity is the one its start event describes, with its last report; a build is attached to the derivation its start names |
| NixHistory.TransferAttachedExactly | pkgs/nom-web/parser.go:268-289 | Over any stream, an active transfer is attached to the only derivation of its name among those noted before it started, and to none if there was none or several, however many are noted later |
| NixHistory.TotalsAreHistory | pkgs/nom-web/parser.go:384-457 | A type's total is the sum of the last reported values over every activity of it ever started |
| NixHistory.AggregateIsHistory | pkgs/nom-web/snapshot.go:63-91 | so is what aggregate returns for done and failed |
| NixHistory.StopChangesNoTotal | pkgs/nom-web/parser.go:403-410 | A stop changes neither total |
| NixHistory.RenderedDoneExactly | pkgs/nom-web/parser.go:191-223 | A derivation renders done if and only if a build of it has stopped and no attached activity is active; building or transferring if and only if one is |
| NixPlan.ActiveExactly | pkgs/nom-web/static/app.js:116-120 | For the bytes of encodeDrvStates the tree view takes a derivation for active if and only if an active activity is attached to it |
| NixTotals.ExpectationIsHistory | pkgs/nom-web/parser.go:458-471 | What an active activity expects of a type is its last report for that type |
| NixTotals.TotalsExactly | pkgs/nom-web/snapshot.go:70-91 | All four totals of a type from the events alone, expected being the larger of what activities expect of it and what its own announce |
| StorePath.NameOf | pkgs/nom-web/parser.go:85-103 | The base of dir/hash-name is hash-name and its name is name, in any directory |
| StorePath.NameOfDrv | pkgs/nom-web/parser.go:105-108 | and without the suffix for a derivation |
| Fanout.Session.Subscribe | pkgs/nom-web/session.go:79-93 | Undisturbed, a new subscriber is primed with the present |
| Fanout.Session.Broadcast | pkgs/nom-web/session.go:101-125 | Undisturbed, a broadcast leaves the newest snapshot in every channel |
| Fanout.StepKeepsInv | pkgs/nom-web/session.go:79-125 | Every locked region and channel operation, interleaved in any way, keeps the delivery invariant |
| Fanout.BroadcastDelivers | pkgs/nom-web/session.go:108-124 | A broadcast that finishes with a channel leaves its snapshot there if and only if no priming send of another snapshot landed, still unread, between its drain and its second send |
| Fanout.FinishedExactly | pkgs/nom-web/session.go:79-125 | In every reachable state a subscriber whose last broadcast was a finished one has a finished snapshot, unread or received last, if and only if that broadcast was not lost to it or it registered after done |
| Fanout.LastBroadcastExactly | pkgs/nom-web/session.go:79-125 | Over runs: from the last broadcast of a finished snapshot that finishes with its channel on, however long, a subscriber has a finished snapshot if and only if it registered after done or no priming send took that broadcast's place |
| Fanout.SettledNeverLoses | pkgs/nom-web/session.go:111-113 | Once the priming send has returned, from the first broadcast that finishes with the channel on (at once if none was lost before) the newest is in the channel or was received last, however slow the reader; a loss is repaired exactly by such a broadcast |
| Fanout.FinishedReachesSettled | pkgs/nom-web/session.go:101-125 | With done set and the reader goroutine holding or delivering the finished snapshot, a settled subscriber has a finished snapshot, unread or received last, whenever the broadcast is over, whatever it lost before |
| Fanout.LateSubscriberGetsFinished | pkgs/nom-web/session.go:83-86 | A subscriber registering after done always has a finished snapshot, unread or read |
| Fanout.ReceivedMovesForward | pkgs/nom-web/session.go:101-125 | Received snapshots never go back in time |
| Fanout.FinishedCanBeLost | pkgs/nom-web/session.go:79-125 | A concrete run in which the final broadcast is lost to a late priming send and the subscriber is left with an unfinished snapshot |
| DatLock.Fetcher.FetchSystemAt | pkgs/arcade-webapp/internal/dats/dats.go:545-613 | One content-addressed fetch: same gates, same order of file, info, ledger and lock |
| DatLock.FetchExactly | pkgs/arcade-webapp/internal/dats/dats.go:545-613 | From the inputs alone: at a commit that is not locked the ledger row and the entry, with the same four values, appear if and only if the reply is accepted; a locked generation is only confirmed; the file changes if and only if bytes are installed |
| DatLock.Fetcher.Refresh | pkgs/arcade-webapp/internal/dats/dats.go:392-459 | Lock file, DAT files and ledger end as the batch at one commit and one attempt to write the lock leave them; nothing happens while another runs; the summary counts exactly the unmapped systems, those fetched without error, and a warning for every other and for a lock not written |
| DatLock.Fetcher.RefreshSystem | pkgs/arcade-webapp/internal/dats/dats.go:464-515 | One fetch; after a failed one the lock file is not written |
| DatLock.RefreshOneExactly | pkgs/arcade-webapp/internal/dats/dats.go:464-515 | A refresh of one system from its inputs: success, file, ledger row and lock file; nothing without a mapping or a commit |
| DatLock.FirstRefreshExactly | pkgs/arcade-webapp/internal/dats/dats.go:392-450 | A system the lock file does not hold gets its file, its ledger row and, if the lock is written, its entry if and only if its reply is accepted |
| DatLock.PinnedCommit | pkgs/arcade-webapp/internal/dats/dats.go:521-537 | A commit of a usable entry fetched no earlier than any other, or none when there is no usable entry |
| DatLock.FetchKeepsAgreement | pkgs/arcade-webapp/internal/dats/dats.go:539-613 | Every lock entry stays equal to its system's newest ledger row; the ledger only grows, by at most one row; no other system is touched |
| DatLock.AttestationLostExactly | pkgs/arcade-webapp/internal/dats/dats.go:585-604 | Of one fetch, against the lock in memory: an attested file is left unattested if and only if other bytes were installed and the store then refused the info or ledger row; against the lock as it was, if and only if other bytes were installed |
| DatLock.GateAfterRefresh | pkgs/arcade-webapp/internal/dats/dats.go:392-450 | Of a whole refresh, against the lock file on disk: the gate refuses a system that was attested if and only if its reply installed other bytes for an entry of another commit and the info row, the ledger row or the lock file was not written |
| DatLock.GateAfterRefreshOne | pkgs/arcade-webapp/internal/dats/dats.go:464-515 | The same for a refresh of one system |
| DatLock.BatchIsItsOwnFetch | pkgs/arcade-webapp/internal/dats/dats.go:425-446 | What a batch does to a system listed once is what its fetch alone would do |
| DatLock.AttestationLostExample | pkgs/arcade-webapp/internal/dats/dats.go:439-450 | A concrete refresh between two 40-character commits after which the gate refuses the system: exactly when the ledger row or the lock file is not written |
| DatLock.BatchKeepsAgreement | pkgs/arcade-webapp/internal/dats/dats.go:425-446 | The agreement over a batch mixing accepted, failed and refused systems |
| DatLock.RefreshedLockAgreesExactly | pkgs/arcade-webapp/internal/dats/dats.go:392-450 | From a lock file that agrees with the ledger, it agrees after a refresh if and only if it was written or no reply was accepted for a mapped system it holds at another commit |
| DatLock.RefreshedOneAgreesExactly | pkgs/arcade-webapp/internal/dats/dats.go:464-515 | The same for a refresh of one system |
| DatLock.LockFallsBehindExample | pkgs/arcade-webapp/internal/dats/dats.go:447-450 | The same concrete refresh: the lock file it leaves agrees with the ledger exactly when it was written |
| DatLock.FetchedSystemPassesGate | pkgs/arcade-webapp/internal/igir/runner.go:380-417 | A system whose last fetch succeeded passes the gate once the lock is written, and igir runs unless a directory cannot be made or a download has started |
| Stamps.StampsOrderTime | pkgs/arcade-webapp/internal/store/store.go:809-836 | For years 0 to 9999 stamps order as strings exactly as time does |
| Stamps.StampReads | pkgs/arcade-webapp/internal/store/store.go:809-836 | A stamp is YYYY-MM-DDTHH:MM:SS.fffffffffZ: every field of the time can be read off it |
| Stamps.LegacyOrdersExactly | pkgs/arcade-webapp/internal/store/store.go:828-835 | A stamp truncated to the second sorts below a new one if and only if its second is strictly earlier |
| GameTable.GameStore.ReplaceSystemGames | pkgs/arcade-webapp/internal/store/store.go:846-868 | Upserts and prune in one transaction; a failing statement or commit leaves the table as it was |
| GameTable.ReplacedExactly | pkgs/arcade-webapp/internal/store/store.go:838-868 | Afterwards the system has exactly the scanned paths and the rows whose stamp does not sort below the new one; known games keep all but size, stamp and a title the scan knows |
| GameTable.ReplacedFields | pkgs/arcade-webapp/internal/store/store.go:846-861 | A listed game's row field by field |
| GameTable.ScansLeaveLast | pkgs/arcade-webapp/internal/store/store.go:816-845 | Over any sequence of ever later scans the system has exactly the last scan's paths |
| GameTable.FirstSeenIsStartOfRun | pkgs/arcade-webapp/internal/store/store.go:854-859 | first_seen is the time of the first scan of the unbroken run of scans up to now |
| GameTable.CurationSurvives | pkgs/arcade-webapp/internal/store/store.go:838-845 | Hidden flag, verify state, flags, checksums, enrichment and first_seen survive any sequence of scans listing the game |
| GameTable.LegacySurvivesOneCycle | pkgs/arcade-webapp/internal/store/store.go:828-835 | An unscanned row with a legacy stamp survives a replace if and only if its second is not strictly earlier |
| GameTable.GameStore.SetSystemScrapeFlags | pkgs/arcade-webapp/internal/store/store.go:1017-1033 | Zero first, then the listed flags |
| GameTable.FlagsReplaceAll | pkgs/arcade-webapp/internal/store/store.go:1011-1016 | An unlisted game ends up unflagged |
| GameTable.FlagsExactly | pkgs/arcade-webapp/internal/store/store.go:1011-1033 | A game ends with the flags listed last for it or with none; nothing else of it changes, nor any other system |
| GameTable.GameStore.SetGameMeta | pkgs/arcade-webapp/internal/store/store.go:1630-1652 | Selective update |
| GameTable.MetaNeverWipes | pkgs/arcade-webapp/internal/store/store.go:1637-1645 | No sequence of updates empties a filled field |
| GameTable.MetaExactly | pkgs/arcade-webapp/internal/store/store.go:1630-1652 | Each field of a game's own update is taken over if and only if it is not empty |
| VerifyReport.Col | pkgs/arcade-webapp/internal/igir/runner.go:658-665 | The first header cell of that name |
| VerifyReport.AddRow | pkgs/arcade-webapp/internal/igir/runner.go:692-759 | One row changes exactly what its class says |
| VerifyReport.ParseReport | pkgs/arcade-webapp/internal/igir/runner.go:650-763 | Counters, offender lists and index-aligned found lists of the rows; no report without a Status column |
| VerifyReport.ClassByWord | pkgs/arcade-webapp/internal/igir/runner.go:699-759 | A row's class from its status word and the side its file is on |
| VerifyReport.CountsExactly | pkgs/arcade-webapp/internal/igir/runner.go:699-760 | Each counter is the number of rows with its status word and side |
| VerifyReport.OffendersExactly | pkgs/arcade-webapp/internal/igir/runner.go:724-758 | The offenders named are those of all unmatched, extra and artifact rows, in report order |
| VerifyReport.FoundListsExactly | pkgs/arcade-webapp/internal/igir/runner.go:700-720 | The found lists are those of all FOUND rows with a file, in report order, each with its own path and checksums |
| VerifyReport.EveryRowCountedOnce | pkgs/arcade-webapp/internal/igir/runner.go:699-760 | The seven counters add up to the rows with a non-blank status, and each offender list is as long as its counter |
| VerifyReport.AlignedExactly | pkgs/arcade-webapp/internal/igir/runner.go:706-716 | The relative paths are as many as the found paths if and only if there is an output directory or no file was found |
| VerifyReport.MisalignedExample | pkgs/arcade-webapp/internal/igir/runner.go:706-716 | A concrete report with one found path and no relative one |
| VerifyReport.FoundRelExactly | pkgs/arcade-webapp/internal/igir/runner.go:703-716 | For a cleaned path below the output the recorded name is its relative path if and only if that is one component or its first component does not begin with two dots |
| VerifyReport.FoundRelExample | pkgs/arcade-webapp/internal/igir/runner.go:703-716 | A concrete path below the output that is recorded under another file's name |
| VerifyReport.UnderIsPrefix | pkgs/arcade-webapp/internal/igir/runner.go:675-681 | Between absolute paths, lying under a directory is having its components as a prefix |
| VerifyReport.CleanExactly | pkgs/arcade-webapp/internal/igir/runner.go:675-681 | Cleaning an absolute path component by component: empty and dot are dropped, two dots undo the one before |
| VerifyReport.ArtifactExactly | pkgs/arcade-webapp/internal/igir/runner.go:765-791 | The files the generator owns are exactly its launcher file and temporaries in the output itself and all of the media tree |
| VerifyReport.VerifiedExactly | pkgs/arcade-webapp/internal/web/verify.go:94-114 | Green if and only if a game was found and nothing is missing, unmatched, other or extra |
| VerifyReport.VerdictExactly | pkgs/arcade-webapp/internal/web/verify.go:94-114 | The verdict of a checked report from its rows' status words and sides |
| VerifyReport.GreenExactly | pkgs/arcade-webapp/internal/web/verify.go:94-114 | Green if and only if some row is FOUND and every row is blank, FOUND, a DUPLICATE of the output side or an UNUSED artifact there |
| VerifyReport.BenignRowsKeepVerdict | pkgs/arcade-webapp/internal/web/verify.go:69-78 | Reports that differ only in output-side duplicates, launcher artifacts and blank rows, anywhere and in any number, get one verdict |
| VerifyReport.OutputDuplicatesAreBenign | pkgs/arcade-webapp/internal/igir/runner.go:747-756 | With an output that is not below the input, a DUPLICATE row below the output is such a row if and only if its file is not in an input nested in the output |
| VerifyReport.GeneratorFilesAreBenign | pkgs/arcade-webapp/internal/igir/runner.go:765-791 | and so is an UNUSED row for a file the generator writes |
| DirScan.BestGame | pkgs/arcade-webapp/internal/scanner/scanner.go:381-393 | The game charged is the sole one of the directory, else the earliest of the longest matching names, else none |
| DirScan.Attribute | pkgs/arcade-webapp/internal/scanner/scanner.go:373-397 | Sizes updated in place end up as own bytes plus those of the companions charged to the game |
| DirScan.ScanSystemDir | pkgs/arcade-webapp/internal/scanner/scanner.go:333-405 | A complete walk gives one row per game in path order; the first error ends the walk, as not populated for any ErrNotExist and as failed otherwise |
| DirScan.GamesExactly | pkgs/arcade-webapp/internal/scanner/scanner.go:345-362 | The games are, in walk order, exactly the files that are not hidden and have an extension of the system or .zip |
| DirScan.CompanionsExactly | pkgs/arcade-webapp/internal/scanner/scanner.go:345-362 | and the companions exactly the others that are not hidden |
| DirScan.ScanLeavesGames | pkgs/arcade-webapp/internal/scanner/scanner.go:194-219 | A complete scan that is stored leaves the system with exactly the games of the walk, each with its own bytes and those charged to it |
| DirScan.BrokenWalkKeepsRowsExactly | pkgs/arcade-webapp/internal/scanner/scanner.go:194-219 | A broken walk keeps the system's rows if and only if its error is not ErrNotExist or the store refuses the replace |
| DirScan.VanishedFileExample | pkgs/arcade-webapp/internal/scanner/scanner.go:208-219 | A concrete scan in which one vanished file costs the system a game that is still there |
| DirScan.BytesConserved | pkgs/arcade-webapp/internal/scanner/scanner.go:313-331 | Row sizes sum to the game files plus every companion with an eligible game, each once |
| DirScan.RowsAreGames | pkgs/arcade-webapp/internal/scanner/scanner.go:399-404 | The rows are exactly the game paths with their charges, strictly ordered when paths are distinct |
| DirScan.ChargedOnce | pkgs/arcade-webapp/internal/scanner/scanner.go:380-397 | No companion is charged twice |
| CacheEngine.Engine.HashListing | pkgs/arcade-webapp/internal/scanner/scanner.go:839-865 | One pass hashes every listed game once and yields flags and texts |
| CacheEngine.Engine.ApplyCache | pkgs/arcade-webapp/internal/scanner/scanner.go:791-896 | The engine under every combination of writes and store failures: table, coverage, count, both errors and which games are hashed, each at most once |
| CacheEngine.Engine.ApplyCacheFlags | pkgs/arcade-webapp/internal/scanner/scanner.go:913-916 | Flags and coverage only |
| CacheEngine.Engine.ApplyCacheEnrichment | pkgs/arcade-webapp/internal/scanner/scanner.go:951-954 | Descriptions only, and how many |
| CacheEngine.Engine.ApplyCacheBoth | pkgs/arcade-webapp/internal/scanner/scanner.go:924-926 | Table, coverage and count as flags followed by enrichment leave them |
| CacheEngine.CompareForms | pkgs/arcade-webapp/internal/scanner/scanner.go:778-790 | Run on equal states, the combined form and the two single forms end in equal states with equal counts, the combined one hashing no game twice |
| CacheEngine.FlagsAreExact | pkgs/arcade-webapp/internal/scanner/scanner.go:898-907 | A game's flags say exactly whether its key has a description or a cover in the cache |
| CacheEngine.DescriptionsAreExact | pkgs/arcade-webapp/internal/scanner/scanner.go:935-949 | A game gets its cached text, trimmed and bounded, and keeps its own when there is none |
| CacheEngine.ClipExactly | pkgs/arcade-webapp/internal/scanner/scanner.go:855-862 | A cached text is kept up to the bound, without the whitespace around it |
| CacheEngine.HiddenKeptExactly | pkgs/arcade-webapp/internal/scanner/scanner.go:935-954 | An ingest leaves every hidden game alone if and only if the cache has no usable text for one of them that it does not hold yet |
| CacheEngine.HiddenGameExample | pkgs/arcade-webapp/internal/scanner/scanner.go:935-954 | A concrete hidden game whose description an ingest changes |
| CacheEngine.PersistSha1s | pkgs/arcade-webapp/internal/scanner/scanner.go:433-484 | What is stored is a prefix of what can be hashed; all of it if and only if the store takes every batch, else exactly the batches taken |
| CacheEngine.ChecksumsExactly | pkgs/arcade-webapp/internal/scanner/scanner.go:433-484 | A complete fill gives exactly the listed games that have a key that key as their checksum and changes nothing else of any |

## Left out

- Regen: `generateOptions` is a version number (the count of stored mutations); a claim of the generator's flag and slot is one step there and two in HeavyJobs; the failure marker and the wording of deferral rows are not modelled; time is a logical clock.
- Regen.OutstandingWorkCanProceed: says that such a run exists, not that the scheduler takes it; the source promises no fairness either.
- Regen.BurstCostsAtMostTwo: counts completed generations; attempts refused as busy or failing are not generations, as in the source's log.
- HeavyJobs: a nil Pipeline (no shared slot) and `GenerateOptions`, which takes its options before the locks and so gives up RenderingNeverGoesBack by its own documentation.
- TreeView.RenderTree: which of several dependents a node is expanded under in the full view is not stated; HTML and legend text are left out.
- DepTree: loading the edge list from its file; `treeSnapshot`'s cache, which drops the lock while it rebuilds.
- Lines: strings are sequences of Unicode scalars; bytes that are not UTF-8 are left out.
- LauncherFile: the completeness sniff and the listing of each media directory's regular files are inputs.
- Publish: kills of the process, not power failures: what fsync makes durable is not modelled. Result details other than outcome and key, and the run row, are left out. The systems query failing ends the pass before anything here begins.
- NixState: display texts (title, names, phases, log and warning rings, times) and the counters of linked, corrupted and untrusted files. Numbers are integers; Go leaves the conversion of numbers of 2^64 and more to the platform, here they wrap. Activities and per-type totals are values in maps, so aliasing of the source's pointers is not captured.
- NixHistory: an id is not started again before its activity has stopped.
- Fanout: the throttle, the file reader and HTTP; a subscriber unsubscribes only after its priming send returned, as its handler does.
- DatLock: HTTP, URL building and the mapping table (a set of mapped systems is given); `dat_info` contents; crashes between the ledger row and the lock write, which leave what a failed lock write leaves.
- GameTable: SQL is a map with the stated upsert, prune and replace semantics; full-text search, paging and other columns.
- VerifyReport: CSV parsing; status words are compared after upper-casing as far as that decides equality with ASCII words.
- DirScan: the calls of the walk function, with their errors, and extension matching are inputs.
- CacheEngine: db.xml parsing and hashing are inputs; log lines.
- The remaining programs of the repository, HTTP handlers, templates, downloads and the Nix modules.
