# shrooms, modelled in Dafny

shrooms is a mesh VPN: devices that hold a mesh's network key find each other over a
public rendezvous plane and talk WireGuard. This project models the parts of it that
carry state across calls, goroutines, process lives or files, and proves what each of
them keeps.

| file | models |
|---|---|
| `Lifecycle.dfy`, `LifecycleEffects.dfy` | the phone's session lifecycle: Start, Stop, StopForRestart, StopNode and invite redemption as goroutines over two mutexes and one delivery node; and what each call has done when it is over |
| `Restarts.dfy`, `RestartRepairs.dfy`, `RestartRuns.dfy`, `RestartCauses.dfy` | the rendezvous and library watchdogs and the restart history they share, over any number of process lives; and exactly when they repair and restart |
| `LastGood.dfy` | the config, its last good copy and the refusal marker, over edits, starts, failures and crashes between file operations |
| `MarkdownLines.dfy`, `MarkdownParse.dfy`, `MarkdownRender.dfy`, `MarkdownBlocks.dfy` | the markdown compiler of the ADR pages: lines, syntax tree, tags, and the one-pass code |
| `MarkdownPatterns.dfy`, `MarkdownTables.dfy`, `MarkdownShape.dfy` | its regular expressions as such, and the blocks, items and cells the lines are cut into |
| `MarkdownText.dfy`, `MarkdownLetters.dfy`, `MarkdownBalance.dfy` | that the pages say what the documents say, and when their tags nest |
| `Args.dfy` | `splitArgs` and `flagsFirst` in front of Go's `flag.Parse` |
| `Portmap.dfy`, `PortmapLoops.dfy` | the port mapper, the watchdog that moves ports and nudges it, and the 16-bit port arithmetic |
| `Slots.dfy`, `Columns.dfy`, `MeshPins.dfy`, `MeshApart.dfy`, `MeshConfig.dfy`, `MeshLabels.dfy` | how meshes get interfaces and ports from their sorted labels, when those are apart, what renaming and removing does to them, and what a label may be |
| `Enrolment.dfy`, `EnrolmentRuns.dfy` | who may have an enrolment, a renewal or a withdrawal published, and that who may has |
| `ConfigEdits.dfy` | settings and slow joins writing one config file |
| `Accounts.dfy` | the card account each card mint takes |
| `SessionLogs.dfy` | the phone's capped logs and its record of killed sessions |
| `RelayReport.dfy` | the figures a relay prints |
| `Options.dfy` | a value that may be absent |

Sequential code that changes things is a class or a method with the source's loops,
proved equal to a function, and the theorems are about the function. Code that runs
beside other code is a step system: one step for each statement another goroutine or
process can see between, and theorems over all runs.

Some promises turned out not to hold as they are written in the source. Each has a
lemma with an input that breaks it, and a lemma that says exactly when it holds:

- A redemption's cleanup checks that the mesh is idle and stops the node without a lock
  between (`mobile/mobile.go:353-357`), so it can stop the node under a new session:
  `Lifecycle.LateStopHappens`, `Lifecycle.HealthyThroughout`.
- The two watchdogs do not always respect each other's limits: a rendezvous tick that
  clears the history after the library watchdog has written it erases that restart:
  `RestartRuns.LateClearBreaksTheFloor`. Exactly when the history is kept:
  `RestartRuns.KeptThroughoutExact`; exactly when the half hour is: `RestartRuns.FloorExact`.
- The config is read twice at a start; an edit between the reads makes the last good
  copy something that never started: `LastGood.EditBetweenReadsBreaksTheCopy`,
  `LastGood.RunExact`.
- A failed removal of the refusal marker leaves it naming the copy being made:
  `LastGood.FailedRemovalBreaksTheMarker`, `LastGood.RunExact`.
- The markdown compiler's tight-item substitution can reach past the paragraph it is
  meant for: `MarkdownBalance.BadIsUnbalanced`, `MarkdownBalance.BalancedExactly`.
- A value flag left without its value takes the `--` that `splitArgs` inserts, and one
  more with every further split: `Args.DanglingTakesTheDashes`, `Args.SplitArgsReads`,
  `Args.SplitArgsIdempotent`.
- The top-level mesh is not "always position zero" (`cmd/shrooms/mesh.go:329`): a label
  that sorts before "default" moves it: `MeshPins.RenamePastDefaultMovesIt`,
  `MeshPins.DefaultIfaceExact`, `MeshPins.DefaultPortExact`.
- A mesh whose port has wrapped to 0 is not pinned by being written down, and moves with
  its position: `MeshPins.RenameAtTheLastPort`, `MeshPins.LoosePortExact`.
- `setMeshBool` without a label writes a top-level flag that belongs to no mesh on a
  config with none at the top level, as `servicesMesh` once did:
  `ConfigEdits.FlatConfigLosesTheFlag`, `ConfigEdits.FlagReachesExact`.
- A config write whose lock could not be taken can lose an acknowledged change:
  `ConfigEdits.UnlockedLosesAChange`, `ConfigEdits.SerialExact`. The mesh commands
  of the command line write without the lock and are such writers.
- Two card mints at once take one account: `Accounts.OverlappingMintsCollide`,
  `Accounts.AccountsIncreaseExact`.
- The relay's unanswered-challenges figure is a difference of unsigned numbers and
  wraps when answers cross a window: `RelayReport.LateAnswerWraps`,
  `RelayReport.UnansweredExact`.

## Model

| member | source | states |
|---|---|---|
| `Lifecycle.StepKeeps` | mobile/mobile.go:1064-1445 | every statement of every call, under any lock ownership, keeps the invariant: who holds which mutex, which devices are open, and whose node is built |
| `Lifecycle.RunKeeps` | mobile/mobile.go:1064-1445 | the invariant holds after every schedule of any set of calls |
| `Lifecycle.TeardownIsAlone` | mobile/mobile.go:1382-1445 | in every interleaving at most one node is ever built, a teardown in the lifecycle mutex has no session and exactly its own devices, no other goroutine starts or stops one beside it, and no two are in the library's Start together |
| `Lifecycle.HealthExact` | mobile/mobile.go:336-359 | one step leaves every session that needs the node with a started node exactly when it is not the unlocked cleanup of a redemption stopping it under a session |
| `Lifecycle.HealthyThroughout` | mobile/mobile.go:299-359 | over whole runs with redemptions: every running session has its node started at every moment if and only if no redemption's cleanup stops it while a session needs it |
| `Lifecycle.SessionsKeepTheirNode` | mobile/mobile.go:1065-1074 | in every interleaving of Start, Stop, StopForRestart and StopNode a running session's node is started |
| `Lifecycle.LateStopHappens` | mobile/mobile.go:353-357 | a reachable state with a session running on a stopped node |
| `LifecycleEffects.CallsDoWhatTheyAre` | mobile/mobile.go:1370-1445 | in every interleaving of the four calls, told from the call made and what it found, when one is about to give up the lifecycle mutex: a Stop that found a session has ended it with no node started; a StopForRestart has ended it with the nodes started as it found them; a StopNode that found no session has left none started, and one that found one changed nothing; a Start has left a session it found alone, runs one on a started node, or has failed and left none |
| `LifecycleEffects.NothingIsLeftOpen` | mobile/mobile.go:1382-1413 | in all of them every device is closed once a Stop of either kind, or a Start that failed, is over |
| `LifecycleEffects.EnrolmentAlone` | mobile/mobile.go:299-359 | from any state that calls can leave, an invite redeemed beside no other call changes nothing under a running session, and otherwise has a started node for its exchange, the one there was if there was one, and leaves it stopped |
| `LifecycleEffects.NoDeadlock` | mobile/mobile.go:1064-1445 | in every interleaving, redemptions too, some call in progress can move: the two mutexes never wait for each other |
| `Restarts.ComputeWait` | cmd/shrooms/restartlog.go:75-89 | the doubling loop computes the backoff |
| `Restarts.WaitIsBackoff` | cmd/shrooms/restartlog.go:75-89 | its closed form: the base doubled once for each restart after the first, never above the ceiling nor below the base |
| `Restarts.RendezvousWatch.LookAround` | cmd/shrooms/daemon.go:1262-1309 | the loop over the meshes finds deaf and silent ones and keeps since when |
| `Restarts.RendezvousWatch.Notice` | cmd/shrooms/daemon.go:1317-1336 | a long healthy run forgets the history, on disk too, and a network change is noted |
| `Restarts.RendezvousWatch.DoTick` | cmd/shrooms/daemon.go:1258-1453 | one tick: the new watchdog, what it does, and what the file holds after it |
| `RestartRepairs.RestartsAreRepairedFirst` | cmd/shrooms/daemon.go:1341-1399 | over all the ticks of a process, at arbitrary times: before a restart for a deaf or silent plane a tick of that process regrafted, less than 45 s earlier and after the condition began, and every tick from two minutes earlier on saw the condition |
| `Restarts.TickGap` | cmd/shrooms/daemon.go:1338-1453 | a restart comes at least six minutes into the process, and ten minutes after the recorded one or after a later network change |
| `RestartCauses.TickExact` | cmd/shrooms/daemon.go:1338-1453 | for every watchdog and input: a tick rejoins the gossip mesh if and only if it is past the grace with a repair due, and restarts with a cause if and only if it is past the grace with none due, that cause is the first of the four troubles old enough, there is a default route and something to start the daemon again, and the history's wait is over or overridden |
| `RestartCauses.TickLeaves` | cmd/shrooms/daemon.go:1258-1453 | and what it leaves for the next: which change of network is unanswered, since when it has been deaf or silent, which silence was acted on, and which history is kept or forgotten |
| `RestartCauses.WaitsDouble` | cmd/shrooms/restartlog.go:75-118 | a restart within three hours of the last doubles the wait up to two hours; one after that starts over |
| `RestartCauses.DownPlanesAreRestarted` | cmd/shrooms/daemon.go:1379-1453 | over the ticks of one process with no history: a plane never reached is restarted at the first tick ten minutes on, for that cause, and at none before |
| `RestartCauses.LastingTroubleIsActedOn` | cmd/shrooms/daemon.go:1341-1453 | a plane deaf or silent at every tick for two minutes is acted on at any tick six minutes up: it is rejoined, or the daemon restarts |
| `RestartCauses.MovedNetworksAreActedOn` | cmd/shrooms/daemon.go:1322-1378 | so is a network that moved under a plane which reaches nobody, 45 seconds after |
| `RestartRuns.LibraryWatch.DecideNow` | cmd/shrooms/libwatch.go:70-96 | the library watchdog restarts, holds back or says so |
| `RestartCauses.DecideExact` | cmd/shrooms/libwatch.go:70-96 | it restarts if and only if the library is dead, something can start the daemon again, and the doubled half hour or three hours are over |
| `RestartRuns.RunKeeps` | cmd/shrooms/daemon.go:1214-1456 | what holds of processes, histories and restarts after every sequence of ticks, faults and boots |
| `RestartRuns.KeptExact` | cmd/shrooms/restartlog.go:109-138 | the shared history stays complete over a step if and only if the step is none of the listed ways to lose it |
| `RestartRuns.KeptThroughoutExact` | cmd/shrooms/restartlog.go:59-138 | over every run, it is complete at every moment if and only if no event is one of those ways |
| `RestartRuns.FloorExact` | cmd/shrooms/libwatch.go:70-96 | over every run, whatever happens to the file: every library restart is half an hour after every restart of an earlier process if and only if each was made by a process that started with a history naming all those still younger |
| `RestartRuns.RestartsAreSpaced` | cmd/shrooms/libwatch.go:148-180 | over any number of lives, while the history is kept: a rendezvous restart is ten minutes after every earlier life's restart or after a later network change, a library restart half an hour after |
| `RestartRuns.ChangesAreSpentOnce` | cmd/shrooms/libwatch.go:175-180 | any two early restarts in different lives, whatever comes between, are earned by two different network changes, the later one by a change after the earlier restart |
| `RestartRuns.ChangesAreReal` | cmd/shrooms/daemon.go:1322-1328 | and the change of every restart is one that a tick of that very process saw |
| `RestartRuns.SixMinutesAlways` | cmd/shrooms/daemon.go:1338-1340 | a rendezvous restart is at least six minutes after every earlier life's restart, whatever happens to the history |
| `RestartRuns.LateClearBreaksTheFloor` | cmd/shrooms/daemon.go:1317-1319 | a run with no failed read or write in which the library watchdog restarts 403 s after the last restart |
| `LastGood.Store.LoadConfigOrLastGood` | cmd/shrooms/lastgood.go:49-82 | which contents a start runs on, and what it marks |
| `LastGood.Store.Save` | cmd/shrooms/lastgood.go:108-123 | a config that started becomes the copy and the marker goes |
| `LastGood.Store.StartDaemon` | cmd/shrooms/daemon.go:274-296 | a whole start against the three files, with the config untouched |
| `LastGood.OneFailedStartAtMost` | cmd/shrooms/lastgood.go:49-104 | after any breaking edit with a usable copy at hand, at most the first start fails, every later one runs on the copy, and this lasts until the config is edited |
| `LastGood.StartExact` | cmd/shrooms/lastgood.go:49-123 | what any start runs on: the config if it loads and is not the refused one or has no copy to stand in for it, otherwise a copy that loads; and a new copy is made only of the config that just started |
| `LastGood.NoSpareTriesAgain` | cmd/shrooms/lastgood.go:72-82 | a refused config with no usable copy is tried again, and becomes the copy if it now starts |
| `LastGood.FixTakesEffect` | cmd/shrooms/lastgood.go:49-123 | a config that loads, starts and is not the refused one is run at once and becomes the copy |
| `LastGood.StepsMakeAStart` | cmd/shrooms/daemon.go:90-93 | the file operations one by one, left alone, add up to a start |
| `LastGood.RunSound` | cmd/shrooms/lastgood.go:49-146 | in every run of edits, starts, failures and crashes between file operations, with no edit between the two reads and no failed removal, the copy only holds contents that once started and the marker never names the copy |
| `LastGood.RunExact` | cmd/shrooms/lastgood.go:49-146 | over every run, disturbed or not, both hold at every moment if and only if no start goes on to write the copy after its two reads differed on a config that loads and what it read had never started, or after it could not remove the marker that names what it read |
| `LastGood.FilesExact` | cmd/shrooms/lastgood.go:108-123 | the same for one file operation |
| `LastGood.StepSound` | cmd/shrooms/lastgood.go:49-146 | one undisturbed file operation keeps what RunSound promises |
| `LastGood.ConfigUntouched` | cmd/shrooms/lastgood.go:49-146 | no step of the daemon writes the config |
| `LastGood.EditBetweenReadsBreaksTheCopy` | cmd/shrooms/lastgood.go:49-56 | an edit between the reads that starts leaves an untried copy, for every such edit |
| `LastGood.FailedRemovalBreaksTheMarker` | cmd/shrooms/lastgood.go:108-123 | a failed removal leaves the marker naming the copy |
| `MarkdownParse.ListConserves` | scripts/render-adrs.py:237-316 | a list's items take its lines in order, each once, and hold fewer characters: the measure on which the mutual recursion terminates |
| `MarkdownParse.ScanCovers` | scripts/render-adrs.py:247-290 | every turn of the item loop keeps the items equal to the lines passed |
| `MarkdownParse.OneBlock` | scripts/render-adrs.py:319-399 | every block ends after it starts and within the file, on every input |
| `MarkdownParse.Dedent` | scripts/render-adrs.py:312-316 | the first line is kept and no characters are added |
| `MarkdownParse.BlocksPartition` | scripts/render-adrs.py:319-399 | the blocks are consecutive, disjoint runs of lines, and every line that is not blank is in exactly one |
| `MarkdownPatterns.MarkerExact` | scripts/render-adrs.py:141-142 | on every line a list marker of a kind is read, with its text where it is, if and only if UL or OL as a regular expression matches up to there |
| `MarkdownPatterns.FenceExact` | scripts/render-adrs.py:143 | a line is read as a fence if and only if FENCE matches it |
| `MarkdownPatterns.HeadingMatches` | scripts/render-adrs.py:144 | a line is read as a heading if and only if HEADING matches it |
| `MarkdownPatterns.HeadingTextExact` | scripts/render-adrs.py:144 | its text is what the lazy group takes: the shortest after all the leading space that the tail can follow |
| `MarkdownPatterns.RuleExact` | scripts/render-adrs.py:145 | a line is read as a rule if and only if RULE matches it |
| `MarkdownPatterns.QuotedExact` | scripts/render-adrs.py:372-377 | a line is quoted if and only if the expression that unquotes it matches its beginning, and it loses the longest that it matches |
| `MarkdownTables.TableExact` | scripts/render-adrs.py:146-167 | a table begins exactly where a bar opens a line above one that ALIGN matches; the dash that is asked for besides is always there |
| `MarkdownShape.KindOfBlock` | scripts/render-adrs.py:319-399 | which block a line begins: the first in the source's order that it is |
| `MarkdownShape.StartsBlockExact` | scripts/render-adrs.py:170-179 | a line ends a paragraph if and only if it would itself begin another block |
| `MarkdownShape.HeadingTag` | scripts/render-adrs.py:356-369 | n number signs make the n-th heading tag around the text |
| `MarkdownShape.ListTagExact` | scripts/render-adrs.py:157-158 | a list is numbered if and only if its first line is |
| `MarkdownShape.ItemsBeginAtMarkers` | scripts/render-adrs.py:247-290 | in every list an item begins on exactly the lines at its indent that have a marker, and holds the text after it and then each line to the next item, less its indent where that is no more than the marker's, and blank ones empty |
| `MarkdownShape.ListsEnd` | scripts/render-adrs.py:247-282 | a list goes on to the end or to the first line that is further out, of the other kind, the start of another block, or not inside it after blank lines |
| `MarkdownShape.DedentExact` | scripts/render-adrs.py:312-316 | an item's other lines all lose the least indent of those not blank, and its first none |
| `MarkdownShape.TableSpan` | scripts/render-adrs.py:214-234 | a table's rows are the lines under its second that a bar opens, to the first that none does, each cut on its own |
| `MarkdownShape.RowCells` | scripts/render-adrs.py:189-196 | a row's cells are the pieces that, joined with bars, are its text less a bar at either end, each without the space around it |
| `MarkdownShape.TableReads` | scripts/render-adrs.py:221-233 | read back from the tags, the head cells hold the first line's cells in order, and the body cells those of the rows |
| `MarkdownText.ParagraphSays` | scripts/render-adrs.py:392-397 | for every document and however nested: the text of a paragraph, split at its newlines by a definition of its own, is the lines of its span in order without the space before the first and after the last |
| `MarkdownText.CodeSays` | scripts/render-adrs.py:331-354 | a fenced block is, line by line, the lines between its fences with only the shell prompts removed |
| `MarkdownText.BlocksSay` | scripts/render-adrs.py:319-399 | so it is for each block of a document and the span it was cut from |
| `MarkdownLetters.DocumentSays` | scripts/render-adrs.py:237-399 | for every document without code fences, the page holds exactly its letters in their order, through headings, quotes, tables and nested lists |
| `MarkdownLetters.TightSays` | scripts/render-adrs.py:299-307 | the tight-item substitutions change no text, whatever tags they break |
| `MarkdownBalance.BalancedExactly` | scripts/render-adrs.py:237-309 | for every document the tags are balanced if and only if no list item opens with a paragraph followed by something other than a list and holds a later paragraph directly above a list |
| `MarkdownBalance.RenderChecks` | scripts/render-adrs.py:237-399 | over any open tags, a rendering closes exactly what it opens if the tree is good, and otherwise breaks the nesting |
| `MarkdownBalance.RenderGaps` | scripts/render-adrs.py:301-306 | the text the substitution looks for occurs exactly where a paragraph stands directly above a list |
| `MarkdownBalance.TightOne` | scripts/render-adrs.py:299-303 | an item of one paragraph is just its text |
| `MarkdownBalance.TightAboveList` | scripts/render-adrs.py:304-306 | a paragraph above a nested list loses both its tags |
| `MarkdownBalance.TightPastOther` | scripts/render-adrs.py:304-306 | one above anything else keeps both, unless a later paragraph stands above a list: then only its opening tag goes |
| `MarkdownBalance.BadIsUnbalanced` | scripts/render-adrs.py:301-306 | a document whose tags do not nest |
| `MarkdownBlocks.Blocks` | scripts/render-adrs.py:319-399 | the loop over lines writes the tags of the parsed tree, balanced exactly when the tree is good |
| `MarkdownBlocks.BlockAt` | scripts/render-adrs.py:319-399 | one turn of it writes one block and moves past it |
| `MarkdownBlocks.ParseList` | scripts/render-adrs.py:237-309 | the list loop writes the tags of its items and returns the line after |
| `MarkdownBlocks.CutItems` | scripts/render-adrs.py:237-290 | the first loop cuts the lines into the items of the specification |
| `MarkdownBlocks.TakeTurn` | scripts/render-adrs.py:247-290 | one turn of it: a new item, more of one, or the end |
| `MarkdownBlocks.Tighten` | scripts/render-adrs.py:299-307 | the two substitutions on the rendered item |
| `MarkdownBlocks.ParseTable` | scripts/render-adrs.py:214-234 | header and rows up to the first line without a bar |
| `Args.DoSplitArgs` | cmd/shrooms/args.go:31-73 | the loop gives flags first, then `--` and the positionals |
| `Args.TakeFlag` | cmd/shrooms/args.go:36-66 | how many tokens a flag takes |
| `Args.SplitArgsReads` | cmd/shrooms/args.go:31-73 | for every flag set and line, Parse after splitArgs gives the same flags, words and error as a reading that ignores order, if and only if no flag is left without its value beside a positional |
| `Args.SplitArgsIdempotent` | cmd/shrooms/args.go:31-73 | splitting twice is splitting once if and only if the line does not end in such a flag beside a positional |
| `Args.DanglingTakesTheDashes` | cmd/shrooms/args.go:31-73 | for every value flag and word, the line on which the inserted `--` becomes the flag's value |
| `Args.FlagsFirst` | cmd/shrooms-agent/a2a.go:553-582 | the loop gives flags with their values first, then words |
| `Args.FlagsFirstReads` | cmd/shrooms-agent/a2a.go:553-582 | with its booleans the set's, Parse after flagsFirst is that same reading if and only if the line neither ends in a flag left without its value beside a word nor can be read with a first word that looks like a flag |
| `Portmap.AsksAnother` | cmd/shrooms/portmap.go:106-116 | the port asked for after contention is never below the listen port, and differs from the contested one if and only if the 16-bit range above the listen port is not used up |
| `Portmap.RenewedInTime` | cmd/shrooms/portmap.go:150-173 | a mapping is asked for again before its lifetime is over if and only if that is more than a minute |
| `Portmap.AnnouncesTheLastAnswer` | cmd/shrooms/portmap.go:93-202 | in every run the mesh announces exactly the last mapping granted if a member could dial it, and nothing after a refusal or a nudge |
| `Portmap.AsksForItsOwnPort` | cmd/shrooms/portmap.go:178-202 | after a nudge, or its port having moved, the mapper next asks for the port in use |
| `Portmap.AsksAre` | cmd/shrooms/portmap.go:106-116 | the closed form of the ports asked for under repeated contention, wrap-around included |
| `Portmap.EveryPortOnce` | cmd/shrooms/portmap.go:106-116 | every port from the listen port + 1 to 65535 is asked for exactly once in each round |
| `Portmap.NextAskPassesTheGrant` | cmd/shrooms/portmap.go:169-174 | after a contested grant the mapper asks past the port it was granted, whatever it had asked for |
| `Portmap.ContentionWalksThePorts` | cmd/shrooms/portmap.go:87-174 | a mapper whose every grant is contested makes exactly those asks in order |
| `Portmap.InsideExact` | cmd/shrooms/portmap.go:58-64 | an IPv4 address passes if and only if it is not unspecified and in none of the private, shared, loopback, link-local or multicast blocks |
| `Portmap.InsideExact6` | cmd/shrooms/portmap.go:58-64 | the same for IPv6, by its first sixteen bits |
| `Portmap.StepKeeps` | cmd/shrooms/portmap.go:81-202 | every step of mapper, watchdog and router keeps the invariant |
| `Portmap.RunKeeps` | cmd/shrooms/portmap.go:81-202 | so does every run |
| `Portmap.NudgeWaits` | cmd/shrooms/portmap.go:35-45 | a nudge sent stays to be taken until it is |
| `Portmap.NothingStale` | cmd/shrooms/portmap.go:178-202 | once a nudge is taken, no mapping asked for before it is announced again in any continuation, and all that is announced passes usableMapping |
| `Portmap.SettledIsRight` | cmd/shrooms/daemon.go:1322-1336 | whenever the watchdog is idle and the channel empty, what is announced was asked for after the last network change seen and for the port last moved to |
| `PortmapLoops.Mapper.Renew` | cmd/shrooms/portmap.go:93-176 | the loop body is the four mapper steps, and waits half the lifetime, at least a minute, or half an hour after a refusal |
| `PortmapLoops.Mapper.Nudged` | cmd/shrooms/portmap.go:181-200 | taking a nudge clears the mapping and starts over from the port in use |
| `PortmapLoops.NudgeRemap` | cmd/shrooms/portmap.go:35-45 | every mapper's channel holds a nudge afterwards and nothing else changes |
| `PortmapLoops.MoveEphemeralPorts` | cmd/shrooms/instance.go:263-282 | each movable mesh is on the port its device bound, and nothing else changes |
| `Slots.ResolvePinned` | internal/state/meshes.go:294-306 | a pin wins |
| `Slots.SearchExact` | internal/state/meshes.go:344-377 | the search lands on a value if and only if it is free and in reach with nothing free before it |
| `Slots.ApartExact` | internal/state/meshes.go:282-306 | every mesh without a pin has what no other has if and only if none comes to a place where nothing in reach is free and what its position gives is taken |
| `Slots.ResolveExact` | internal/state/meshes.go:294-377 | on every list of pins, what a mesh without one gets: the first in reach that no pin and no mesh before it has, or its position's own where there is none |
| `Slots.FewAreApart` | internal/state/meshes.go:344-379 | with no more than sixty-four meshes, and candidates that differ, every mesh without a pin has what no other has |
| `MeshApart.InterfacesApart` | internal/state/meshes.go:344-358 | so in every config of no more than sixty-four meshes an interface that is not pinned is no other mesh's, pinned or not |
| `MeshApart.PortsApart` | internal/state/meshes.go:364-375 | nor is a port, where the device's own leaves room above it |
| `MeshApart.DigitsReadBack` | internal/state/meshes.go:344-358 | the number written after the base name reads back as the position |
| `Columns.SortedPosition` | internal/state/meshes.go:255-259 | a mesh's position is the number of labels that sort before it |
| `Columns.SortedOrder` | internal/state/meshes.go:255 | the meshes are in label order |
| `Columns.LooseExact` | internal/state/meshes.go:282-306 | in every config, what a mesh without a pin has, by its label |
| `Columns.LoneExact` | internal/state/meshes.go:282-306 | with every other mesh pinned, what the last one gets, if and only if, searches that run out included |
| `MeshConfig.FirstFreeSlot` | internal/state/meshes.go:344-377 | the search loop finds the first free candidate |
| `MeshConfig.ResolveColumn` | internal/state/meshes.go:282-306 | the two loops over the pins and the rest resolve a column |
| `MeshConfig.ConfigFile.Meshes` | internal/state/meshes.go:233-309 | the sorted labels with the interface and port each resolves to |
| `MeshConfig.ConfigFile.PinInterfacesAndPorts` | cmd/shrooms/mesh.go:325-338 | the loop writes down what every named mesh but "default" resolves to |
| `MeshConfig.ConfigFile.Rename` | cmd/shrooms/mesh.go:247-290 | a rename is refused, for its labels or because the result does not validate, and nothing changes; or it pins and moves one entry |
| `MeshConfig.IsLabel` | internal/state/meshes.go:517-540 | the loop accepts exactly the labels a DNS name and a config key can hold |
| `MeshLabels.LabelsFit` | internal/state/meshes.go:508-536 | a label is valid if and only if it is a letter-digit-hyphen label of section 2.3.1 of RFC 1035 in lower case, a leading digit allowed; then the config key and the DNS name it goes into come apart into it again |
| `MeshLabels.KeyReadsBack` | internal/state/meshes.go:538-551 | a config key reads back as its label and field if and only if neither is empty and the label has no dot |
| `MeshLabels.KeyWritesBack` | internal/state/meshes.go:538-551 | and a key that is read is the one its label and field write |
| `MeshConfig.ConfigFile.Remove` | cmd/shrooms/mesh.go:369-415 | a removal is refused, for its label or because the result does not validate, and nothing changes; or it pins and deletes one entry |
| `MeshPins.NextKeeps` | cmd/shrooms/mesh.go:278-283 | a mesh one operation leaves is there under its new name with the key, interface and port it had, and pinned to them |
| `MeshPins.HoldsExact` | cmd/shrooms/mesh.go:325-338 | an operation pins exactly the meshes that resolve to a port other than 0 and a name, and one called "default" only as far as it was |
| `MeshPins.NamedMeshesStay` | cmd/shrooms/mesh.go:236-338 | over every sequence of renames and removals, carried out or refused, each such mesh that is not removed is there, under the name they leave it, with the interface and port it resolved to at the start, whatever the other meshes resolve to |
| `MeshPins.NoOthersAppear` | cmd/shrooms/mesh.go:236-338 | and nothing is there that was not |
| `MeshPins.RemovalsHappen` | cmd/shrooms/mesh.go:369-415 | a removal that validation does not oppose takes exactly its mesh away, and one of a mesh that is not there changes nothing |
| `MeshPins.RenamesHappen` | cmd/shrooms/mesh.go:247-290 | a rename that validation does not oppose, of a mesh that is there to a label that can be had, takes exactly that label for the other; any other changes nothing |
| `MeshPins.OperationsCall` | cmd/shrooms/mesh.go:236-338 | and every mesh goes by the name this gives it, which is the name the other results follow it by |
| `MeshPins.LooseIfaceExact` | cmd/shrooms/mesh.go:325-338 | every mesh that an operation cannot pin: exactly what interface it has then |
| `MeshPins.LoosePortExact` | cmd/shrooms/mesh.go:325-338 | and what port, with the 16-bit wrap where the search meets the end |
| `MeshPins.DefaultIfaceExact` | cmd/shrooms/mesh.go:327-330 | beside pinned meshes, the mesh called "default" keeps its interface if and only if it is the first from its new position that nobody holds, or nothing in reach is free and it is the position's own |
| `MeshPins.DefaultPortExact` | cmd/shrooms/mesh.go:327-330 | the same for its port, searches that run out or meet the 16-bit wrap included |
| `MeshPins.SameSideExact` | cmd/shrooms/mesh.go:327-330 | over a rename that stays on its side of "default" that mesh keeps its interface and port if and only if no other had them too, or nothing in reach is free and they are the position's own |
| `MeshPins.RenameAtTheLastPort` | cmd/shrooms/mesh.go:325-338 | on port 65535 a rename hands the device's port to the mesh that had wrapped to 0 |
| `MeshPins.RenamePastDefaultMovesIt` | cmd/shrooms/mesh.go:327-330 | a config whose top-level mesh moves from logos0 and 51820 to logos02 and 51822 |
| `Enrolment.VerifyExact` | internal/cred/cred.go:445-477 | what verifies, if and only if |
| `Enrolment.FinishExact` | internal/cred/draft.go:66-98 | what a draft and a signature finish to, whole or cut, if and only if |
| `Enrolment.GroupReplyExact` | cmd/shrooms/invitegate.go:28-98 | a group caller may reply if and only if the mesh trusts only cards, one of them signed a credential valid now, and it names both keys recorded for that invite |
| `Enrolment.StepKeeps` | cmd/shrooms/daemon.go:929-1054 | every hold, request, signature, check and publication keeps all publications earned |
| `Enrolment.EverythingIsEarned` | cmd/shrooms/daemon.go:929-1054 | in every run, what a group caller had published was signed by a card of that mesh earlier in the run, and a reply names exactly the keys that asked on that invite |
| `Enrolment.AdminEarns` | cmd/shrooms/cardadmin.go:51-90 | a body accepted from a group caller carries a card's signature |
| `Enrolment.AdminPostsVerify` | cmd/shrooms/daemon.go:2135-2161 | in every run each renewal and withdrawal published, root's too, is signed by a key of its own mesh |
| `Enrolment.EnrolmentSucceeds` | cmd/shrooms/daemon.go:986-1053 | a device that asked and was signed for is admitted for any caller while record and credential last |
| `EnrolmentRuns.DevicesAreAdmitted` | cmd/shrooms/daemon.go:929-1054 | over runs, from any state: an invite is held, a device asks, a card of the mesh signs for its keys, any caller offers that, whole or cut, before record and credential end, and it is sent; with any events not this invite's own between, each step is possible and the reply is published and stays so |
| `EnrolmentRuns.InvitesAreForOne` | cmd/shrooms/daemon.go:929-984 | once a device has asked on an invite, or it was given up, none can ask on it in any continuation until it is held open again |
| `EnrolmentRuns.RecordExact` | internal/mesh/invite.go:189-223 | over every event, sweeping included: what may still be asked for under an invite changes only with its own exchange, to the keys that asked and the time the invite was held till |
| `EnrolmentRuns.MayReplyExact` | cmd/shrooms/daemon.go:986-1053 | a reply is let through if and only if it is what the signature given completes, or came without one and is no unsigned draft, and the caller is root or it proves a card of the mesh approved the keys recorded for this exchange |
| `EnrolmentRuns.TakenExact` | cmd/shrooms/cardadmin.go:51-90 | a body of a renewal or withdrawal is taken if and only if it is root's plain one, or a draft that its signature, whole or cut, completes for a key of the mesh, from root or where the mesh trusts only cards |
| `EnrolmentRuns.AdminPostExact` | cmd/shrooms/daemon.go:2135-2161 | a renewal or withdrawal is published if and only if its body is taken and it is signed by a key of the mesh and valid now |
| `Enrolment.SweepForgetsNothing` | internal/mesh/invite.go:189-223 | sweeping lapsed records forgets nothing that could still be asked for |
| `ConfigEdits.ServicesReadBack` | cmd/shrooms/control.go:182-199 | for every config shape, services written under a label read back under it and under every label that means the same mesh, and no other reading changes |
| `ConfigEdits.FlagReachesExact` | cmd/shrooms/control.go:537-552 | on every config a successful flag write touches no mesh but the one at its place, and some mesh's flag changes if and only if the top-level mesh is real, or the label is given and is not "default" over the placeholder key, and its flag was another |
| `ConfigEdits.FlagReachesNothing` | cmd/shrooms/control.go:537-552 | with none at the top level a write without a label succeeds and reaches no mesh, where on several a services write is refused |
| `ConfigEdits.FlatConfigLosesTheFlag` | cmd/shrooms/control.go:553-568 | a flattened config of two meshes on which it does |
| `ConfigEdits.ChangeKeepsTheRest` | cmd/shrooms/control.go:615-660 | every change leaves all it does not set as it was |
| `ConfigEdits.AgreeExact` | cmd/shrooms/control.go:615-660 | a change makes the same of two configs if and only if they agree on all it does not set, and both or neither hold the mesh it leaves or adds |
| `ConfigEdits.JoinAddsExactly` | cmd/shrooms/joinmore.go:198-210 | a join adds exactly its entry beside the others, and never a second mesh with one key |
| `ConfigEdits.ConfigStore.Update` | cmd/shrooms/control.go:615-660 | the file changes if and only if the request is one its handler takes and some config that validates has what it is for and nothing else changed; and it is then that config |
| `ConfigEdits.ApplyExact` | cmd/shrooms/control.go:145-199 | every request on every config: it is accepted if and only if its handler takes it (a mode that is one of the two, services for a mesh the label means, a label that names an entry and not the top-level fields) and a config that has what it is for, and nothing else changed, validates; and that config is the only one |
| `ConfigEdits.RequestsLand` | internal/state/config_update.go:34-77 | a request the file takes, with the lock free, is written, acknowledged and leaves the lock free |
| `ConfigEdits.JoinsLand` | cmd/shrooms/joinmore.go:198-214 | a slow join adds its entry to the file as it then is, whatever was written meanwhile |
| `ConfigEdits.KeysApart` | internal/state/meshes.go:384-409 | the loop accepts a config if and only if no two meshes share a key |
| `ConfigEdits.ChangesAreSerial` | internal/state/config_update.go:34-48 | with the lock taken by every writer, every interleaving of settings, slow joins, failed writes and crashes leaves the file as the acknowledged changes make it one by one in the order written |
| `ConfigEdits.WriteSerialExact` | internal/state/config_update.go:53-77 | locked or not, a write keeps that if and only if the writer's copy and the file agree on all that its change does not set |
| `ConfigEdits.SerialExact` | internal/state/config_update.go:34-77 | over every run, locks or none, the file is at every moment what its acknowledged changes make of it if and only if no write lands from a copy that does not so agree |
| `ConfigEdits.FileStaysValid` | cmd/shrooms/joinmore.go:82-214 | a file that would load always would, with or without the lock |
| `ConfigEdits.UnlockedLosesAChange` | internal/state/config_update.go:53-77 | a run without the lock that loses an acknowledged change |
| `Accounts.FindNextAccount` | cmd/shrooms/admin.go:95-130 | the two loops give one more than the greatest card account, in 32 bits, or 0 |
| `Accounts.FreshExact` | cmd/shrooms/admin.go:95-130 | that account is unused if and only if not both the last account and account 0 are used |
| `Accounts.AccountsIncreaseExact` | cmd/shrooms/admin.go:1330-1396 | over every run of file mints, card mints, renames and removals, overlapping or not, leftover files replaced or not, below the last 32-bit account: each card mint gets a greater account than all before if and only if each chooses after the one before it is written |
| `Accounts.RenameUsed` | cmd/shrooms/mesh.go:292-305 | renaming an admin file changes no account |
| `Accounts.FilesFollowTheirMesh` | cmd/shrooms/mesh.go:292-305 | over every run of mints, renames and removals an admin file goes where its mesh goes, whole, until a card is minted over it |
| `Accounts.CardsFollowTheirMesh` | cmd/shrooms/admin.go:1330-1396 | a card minted is in its mesh's file with the account chosen for it, wherever the mesh goes after |
| `Accounts.AdminFileExact` | cmd/shrooms/admin.go:134-143 | two labels share an admin file if and only if they are the same or both mean the default |
| `Accounts.OverlappingMintsCollide` | cmd/shrooms/admin.go:1330-1396 | two card mints at once take the same account |
| `SessionLogs.LogFile.AppendCapped` | mobile/diagnostics.go:56-78 | the newest half from a line's start, then the line |
| `SessionLogs.FileIsATail` | mobile/diagnostics.go:56-78 | whatever lines were logged, the file is the end of it all from the start of a line, ends with the newest entry and is no longer than the cap and one entry, or for entries longer than the cap than two |
| `SessionLogs.TrimKeepsTheMost` | mobile/diagnostics.go:61-70 | of the ends of a log that start a line past its middle, trimming keeps the longest |
| `SessionLogs.NothingLostUnderTheCap` | mobile/diagnostics.go:56-78 | while all before the newest entry fits the cap the file is everything logged |
| `SessionLogs.SessionMarker.SessionStarted` | mobile/diagnostics.go:101-129 | after any calls before it, the record tells in order how each session ended, the marker names this one, and the note says whether one more was killed |
| `SessionLogs.SessionMarker.SessionRebuilt` | mobile/diagnostics.go:136-151 | the record then tells that the session under way was rebuilt, none is under way, and no kill is recorded for it |
| `SessionLogs.SessionMarker.SessionStopped` | mobile/diagnostics.go:158-174 | the record then tells that the session under way was stopped, none is under way, and no kill is recorded for it |
| `SessionLogs.EndingsAreRecorded` | mobile/diagnostics.go:101-174 | over every run of starts, stops, rebuilds and deaths, the lines written are exactly the sessions something was said after, in order, with what that makes of them, and the marker names the one under way |
| `SessionLogs.KilledExactly` | mobile/diagnostics.go:101-174 | over every run, KILLED is recorded for exactly the sessions neither stopped nor rebuilt before the next start |
| `RelayReport.Report` | cmd/shrooms-relay/main.go:253-326 | the loop prints the lines of the specification for any ticks |
| `RelayReport.ReportsAddUp` | cmd/shrooms-relay/main.go:253-356 | printed packets, refusals, drops and throttles sum exactly to the counters' growth, and printed bytes if and only if none went by in a skipped window |
| `RelayReport.BytesWithPackets` | cmd/shrooms-relay/main.go:289-296 | a relay that counts bytes only with packets leaves none unreported |
| `RelayReport.NeverSilentAnHour` | cmd/shrooms-relay/main.go:286-297 | at every tick there is a printed line less than an hour old |
| `RelayReport.SilentExact` | cmd/shrooms-relay/main.go:286-297 | a window prints nothing if and only if no packet, trouble or peer came or went in it and a line is less than an hour old |
| `RelayReport.LinesAreTicks` | cmd/shrooms-relay/main.go:286-312 | every line's window and running total are those of its own tick and the one before |
| `RelayReport.IdleIsHourly` | cmd/shrooms-relay/main.go:286-297 | a relay with nothing new speaks at most once an hour |
| `RelayReport.UnansweredExact` | cmd/shrooms-relay/main.go:352-354 | the unanswered figure is issued less answered if and only if none was issued or no more were answered |
| `RelayReport.LateAnswerWraps` | cmd/shrooms-relay/main.go:352-354 | one late answer prints 18446744073709551615 |

## Left out

- Cryptography: signatures are symbols, a card's can only be made by that card and a file's by anybody; contents with one SHA-256 are taken to be the same contents.
- Goroutines, channels and mutexes of the lifecycle, the mapper, the watchdogs and the config writers are step systems on values; memory models and starvation are not modelled, only what each interleaving can reach.
- Exits of Start before the mux exists (mobile/mobile.go:1124-1132) and failures of a daemon start outside the mesh loop; the daemon that waits for a network key (cmd/shrooms/daemon.go:85-87).
- Restarts: times are whole seconds on one clock that does not go back, and a write of the history either happens or does not.
- LastGood.Store.LoadConfigOrLastGood: an unreadable marker reads as none, as in the source; partial writes are outside, since files are written beside and renamed.
- MarkdownLetters.DocumentSays: is about documents without a run of three backquotes; what fenced code says is CodeSays, and a fence line's own word is not written by the source either.
- MarkdownPatterns.HeadingMatches: of lines without a newline, as the source's are.
- Markdown: inline markup, heading ids and column alignment are leaves; `\d` is ASCII digits; the page templates around the blocks.
- MeshPins.NamedMeshesStay: a config with both a top-level mesh and an entry called "default" is outside, because Go's sort leaves the order of equal labels open. Meshes that an operation cannot pin are the subject of LooseIfaceExact and LoosePortExact.
- MeshPins.DefaultIfaceExact: is for a device whose other meshes can all be pinned; LooseIfaceExact and LoosePortExact are for every device.
- MeshConfig.ConfigFile.Rename: what Validate asks is a predicate; the prompts, and the admin file it renames, which is in Accounts.
- MeshConfig.ConfigFile.Meshes: the entries' other fields, and the same double "default".
- PortmapLoops.Mapper.Renew: what is logged, and in.mapped, which only decides that.
- Enrolment: the sealing of answers, the first round of an exchange, and which socket callers count as identified.
- ConfigEdits: the handlers for name, domain, relay lists, port mapping and the per-mesh flags other than relay are of the same shape; service parsing and the rest of validation are a predicate.
- A person editing the config by hand while a setting is written: an editor takes no lock.
- SessionLogs.FileIsATail: reads and writes succeed; a log whose trim fails keeps growing. Clearing the diagnostics, and tail's last lines.
- RelayReport.Report: rates, memory and processor figures, and how numbers are rendered.
- The mesh protocol itself (roster, probing, relays, DNS), the merge of meshes in a status snapshot, mayReadMembers' one condition, the agent's other commands, and everything drawn or printed.
