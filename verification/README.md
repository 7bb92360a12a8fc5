# Splouch, modelled and proved

Splouch is a live swimming scoreboard: a Pi at each pool reads the timing console, a
control plane and its workers relay the meets to attendees' phones, and TVs show the
board. This project models the parts of it whose correctness spans many calls, runs or
machines, in Dafny, and proves what the program promises of them.

| file | what it models |
|---|---|
| `MeetTables.dfy`, `Registry.dfy`, `Placement.dfy`, `TableEffects.dfy`, `Visits.dfy` | the control plane's tables: which worker holds each meet, over any run of register, heartbeat, move, retire, restore and the admin's operations; and where Pis and visitors are sent |
| `Rollout.dfy` | rolling updates, interleaved with heartbeats |
| `MeetWatch.dfy`, `Follows.dfy`, `HandOvers.dfy` | followers' notifications: which heat is on the console, when the next ones start, what is due, and that nothing is sent twice |
| `Relay.dfy`, `WorkerMeets.dfy` | a worker's live meets: the merged frame cache, late joiners, the clock throttle, and which socket publishes what |
| `Board.dfy` | the heat transition of the TV's board |
| `TestMeets.dfy`, `TestPass.dfy` | the test meets' heats, frame by frame, and the results validated behind the pool |
| `Loader.dfy`, `RecordCache.dfy` | two small concurrent machines: the coalescing schedule loader and the bounded card cache |
| `IsoDate.dfy`, `Calendar.dfy` | when a meet is over and off the picker, computed once on the Pi and once in the cloud |
| `Heats.dfy` | the running order and the operator's steps through it |
| `Clocks.dfy` | the clock printer, its parser, and the three printers of a delta |
| `ConsoleTimes.dfy` | the console's times in memory and in their append-only log |
| `Text.dfy` | strings as the program compares and prints them |

Where the program updates fields in place, a class has those fields and each method is
proved to leave exactly the state a specification function says; the properties are
lemmas about those functions over whole runs (`Run`), for every sequence of operations.
A step of a concurrent machine is one locked section, or one section between two awaits.

Instants are whole seconds (reals where the program compares fractions of one), race
times hundredths. Tables are maps, each committed block one step. An operation's
arguments, the clock, the random draws, the network's answers and the order of events
are arbitrary.

## Findings

Places where the code does not do what its documentation says, or what its own design
leads one to expect, each with a lemma that shows it and the condition under which it does:

- **Keeping a meet listed.** The Pi sends the end of its meet and the keep the operator
  asked for, and the registry stores both, but the worker between them passes on neither
  (`cloud/cloud_server.py:704-712`). So the two sides disagree about a meet with a known
  end, exactly from a day after that end to a day after midnight
  (`Calendar.AgreementThroughWorker`, `Calendar.WorkerListsAnOverMeet`), and a keep has no
  effect. Given what the Pi sends, they agree (`Calendar.CloudAgreesWithPi`).
- **A meet whose date cannot be read** is never over on the Pi, and over in the cloud as
  soon as its text sorts before today's (`Calendar.UnreadableDate`).
- **A stale socket can drop a meet.** A socket that registers a second meet drops its
  first even when another socket has taken it over (`cloud/cloud_server.py:748-751`):
  `WorkerMeets.StaleSocketDropsMeet`, with the exact condition in
  `WorkerMeets.ServedExactlyWhile`.
- **A move notice that misleads.** It names a bare path while the target's node has not
  reported its public address, and the target's worker for a meet already retired there,
  which is reached at the node's first worker: `Placement.NoticeNamesTheMeetBase` has the
  exact condition, `Placement.RetiredMeetIsMisnamed` the run.
- **Visitors of the old node.** Once the worker a meet was moved from has let it go, its
  node's offline record comes before the control plane's card, and its visitors get the
  offline page for ten minutes at least while the meet is live elsewhere
  (`Visits.OldNodeServesOffline`; `Visits.VisitorsFollowMove` has the exact condition).
- **A hand-over forgets what was told meanwhile.** A notification sent on the old node
  between the reading and the dropping of its follows is in no bundle, and is sent again
  by the new one (`HandOvers.LateMarkSentTwice`); a device that registers meanwhile is
  dropped (`LateFollowIsDropped`). With no evaluation telling it in between nothing is
  forgotten (`DropForgetsOnlyLateMarks`).
- **A refused hand-over forgets what was sent.** The marks stay on the old node, so a
  device that registers again on the new one can be told of a heat twice
  (`HandOvers.RefusedHandOverSendsTwice`). The bound of `HandOvers.SentAtMostOnce` counts both.
- **A call within the time to live, and an older answer.** A lookup that looked before
  another stored calls although a fresh card is kept, and answers the older one when the
  call fails (`RecordCache.CallDespiteFresh`, `OlderAnswer`); never where none stored the
  id in between (`UpToDateUnlessStored`).
- **A torn log line takes the next record with it.** The console-time log is appended to
  without ending a line torn by a power cut, so the next finished heat is read as part
  of it and both are lost on replay (`ConsoleTimes.RecordSurvives`, `TornLineCostsOneMore`).
- **A frame that brings a new heat and starts its lanes at once**, on top of results,
  begins the transition and stops those lanes again (`Board.NewHeatStopsLanes`); any other
  frame that starts lanes shows them at once (`Board.RaceShowsTable`, both directions).

## Model

| member | source | states |
|---|---|---|
| Placement.RunKeepsRows | cloud/cloud_registry.py:195-276 | over every run of all the registry's operations: a live row has a holder, no expiry and never a recorded move from its own placement; a retained row has an expiry, nobody watching and no keep |
| Placement.StepKeepsRow | cloud/cloud_registry.py:386-562 | one operation keeps one row so, whatever it does to the others |
| Placement.LiveMeetFate | cloud/cloud_registry.py:386-562 | no operation but a register or a move of a live meet changes its placement or its move, and only forgetting the test meets removes it |
| Placement.BeatIsLocal | cloud/cloud_registry.py:413-518 | a heartbeat leaves every row not held at its own node and worker as it is, and retires exactly the rows it dropped |
| Placement.MoveTakesEffect | cloud/cloud_registry.py:521-553 | an accepted move puts the meet at its target and records the placement it had |
| Placement.MoveUndoneOnlySo | cloud/cloud_registry.py:195-704 | a step leaves a moved meet's row at its target with its move recorded exactly unless it is an accepted register or move of it, or a backup's card that puts it on another node |
| Placement.MovedMeetStaysLive | cloud/cloud_registry.py:386-562 | a moved meet stays live exactly through every step but a retire by its target, a beat of its target omitting it after 30 seconds, 90 seconds of nobody vouching for it, and the test meets being forgotten |
| Placement.MoveHolds | cloud/cloud_registry.py:521-553 | over any run without an accepted register or move of the meet, or such a card, retires included, the meet stays at its target as long as it has a row |
| Placement.NoticeIsDue | cloud/cloud_registry.py:490-499 | a beat of the old holder naming a moved meet, live or retired, is owed a notice exactly for two minutes after the move, its new node being known |
| Placement.NoticeNamesTheMeetBase | cloud/cloud_registry.py:53-67 | a due notice names the meet's base exactly when the meet's node has an address and the meet is live or on its first worker; with no address, when the control plane itself is reached at that bare path |
| Placement.RetiredMeetIsMisnamed | cloud/cloud_registry.py:469-517 | a target that lets the meet go after its grace, and an old holder then told of a worker the meet is no longer reached at |
| Placement.PiFollowsMove | cloud/cloud_registry.py:133-192 | after any such run, the meet retired or not, a Pi asking again is sent to the target exactly when that worker is up, active and in its organizer's region |
| TableEffects.SilenceRetiresExactly | cloud/cloud_registry.py:556-562 | over every run silence retires a live meet exactly when neither a register of it nor a beat of its holder naming it has come in 90 seconds |
| TableEffects.SeenIsLastVouched | cloud/cloud_registry.py:452-456 | over every run a live row was last seen when it was last vouched for |
| TableEffects.BeatVouches | cloud/cloud_registry.py:452-456 | a beat of the holder naming a meet keeps it through the next 90 seconds of silence |
| TableEffects.BeatDropsExactly | cloud/cloud_registry.py:469-476 | a beat lets a held meet go exactly when it does not name it and no move is under half a minute old |
| TableEffects.BeatTakesEffect | cloud/cloud_registry.py:452-468 | of each meet held and named a beat writes the time, the attendees, never below none, and the last frame, and nothing else |
| TableEffects.BeatWritesNode | cloud/cloud_registry.py:437-451 | of its node it writes address, workers and time, a version and region only when known, and never whether it is in use or what a rollout set |
| TableEffects.RegisterTakesEffect | cloud/cloud_registry.py:195-282 | an accepted register leaves the meet live where it registered, with the days it sent and its attendees and last frame kept; a refused one leaves everything |
| TableEffects.RetireIsHolders | cloud/cloud_registry.py:386-410 | a disconnect retires exactly the holder's meet, which keeps its place, key and days and loses watchers and keep |
| TableEffects.RestoreTakesEffect | cloud/cloud_registry.py:654-704 | a backup's card of a meet not live is written retained, with its key only where the organizer is known and its node, or the fallback, or the one it had |
| TableEffects.MoveGoesWhereAssignCould | cloud/cloud_registry.py:521-553 | a move is accepted exactly where a live meet's Pi could be sent, were its organizer of no region, and is not already |
| TableEffects.OfferedStaysInRegion | cloud/cloud_registry.py:133-169 | a worker is offered exactly when its node is in use, heard from in 90 seconds and of the organizer's region |
| TableEffects.InactiveIsNotOffered | cloud/cloud_registry.py:133-169 | a node out of use is offered to nobody until it is put back, and its meets stay |
| TableEffects.LastHolderIs | cloud/cloud_registry.py:133-169 | the last holder is the worker in the meet's row, live or not, exactly while it is offered |
| TableEffects.RetiredIsKeptThroughItsDate | cloud/cloud_registry.py:594-598 | a retired meet is swept exactly from when its date sorts before today's; with no readable date, from the day after it was retired |
| TableEffects.ExpiryIsKept | cloud/cloud_registry.py:630-635 | an expiry set on a retained meet is when it is swept, and does nothing to a live one |
| TableEffects.AdminSparesLiveMeets | cloud/cloud_registry.py:638-640 | a delete spares exactly the live meets, forgetting tests takes exactly those of test organizers, and a node is forgotten exactly when no live meet is on it |
| TableEffects.StrippedOfSlashes | cloud/cloud_registry.py:53-67 | a base is its host less every slash at its end |
| Registry.Registry.Retire | cloud/cloud_registry.py:401-410 | a retire touches the row only where node and worker are its holder |
| Registry.Registry.RetireSilent | cloud/cloud_registry.py:556-562 | exactly the live rows not vouched for in 90 seconds are retired, and returned |
| Registry.Registry.RecordBeat | cloud/cloud_registry.py:437-476 | the four statements of a heartbeat in turn leave, row by row, what the specification says, and retire exactly the dropped rows |
| Registry.Registry.Heartbeat | cloud/cloud_registry.py:413-518 | its answer: the rows it retired, the meets whose key was withdrawn, exactly one notice for each meet due one, naming where the row now is, and the version its node is to update to |
| Registry.Registry.Assign | cloud/cloud_registry.py:133-192 | refused exactly without an active key; the last holder while it may take the meet; else the worker offered with fewest attendees, then fewest meets, then first by node and number; none only when none is offered |
| Registry.LeastLoaded | cloud/cloud_registry.py:177-183 | the place found comes before every other by load and name |
| Registry.LoadAt | cloud/cloud_registry.py:170-176 | the load read row by row is the sum over the worker's live meets, each once |
| Registry.LoadCountsMeets | cloud/cloud_registry.py:170-176 | the count in a load is the number of live meets the worker holds |
| Registry.LoadCountsAttendees | cloud/cloud_registry.py:170-176 | each attendee added to a live meet is added to its holder's load, once, and to no other's |
| Registry.LoadStartsAtNone | cloud/cloud_registry.py:170-176 | a worker whose meets have no attendee has none |
| Registry.Notices | cloud/cloud_registry.py:490-518 | one notice for each meet due one, none twice and none else |
| Registry.RetireRows | cloud/cloud_registry.py:386-398 | retiring row after row retires exactly the rows named |
| Registry.NoteFrames | cloud/cloud_registry.py:457-462 | only rows held by the worker take its frames' times |
| Registry.NoteAttendees | cloud/cloud_registry.py:463-468 | only rows held by the worker take its counts, never below none |
| Registry.RestoreCards | cloud/cloud_registry.py:654-704 | restoring card after card writes exactly the cards whose meet is not live |
| Registry.Registry.Restore | cloud/cloud_registry.py:654-704 | a restore leaves live rows alone, writes every other card retained, and names what it wrote |
| Visits.BasesAgree | cloud/cloud_server.py:116-120 | the worker's and the control plane's own codes name the same base for every card with an address |
| Visits.SentOnAtMostOnce | cloud/cloud_store.py:70-96 | a visitor sent on by a card is not sent on again by it, whatever the worker it names holds and its node has stored |
| Visits.VisitorsFollowMove | cloud/cloud_server.py:96-125 | by a card fetched at any point of a run that does not undo the move, a visitor is sent on, and then to the meet's base, exactly when this worker does not hold the meet, its node has no record of it or one that says live of a live meet, and this is not the target (for a retired meet, not its node) |
| Visits.OldNodeServesOffline | cloud/cloud_store.py:58-96 | once the old holder has stored the meet offline, every worker of its node serves that record for at least ten minutes, whatever the card says |
| Visits.SweepFreesVisitors | cloud/cloud_meetstore.py:132-146 | the sweep drops that record exactly when the meet is no longer listed for the node and it was last written longer ago |
| Visits.PruneIsUnseen | cloud/cloud_meetstore.py:149-157 | pruning takes exactly the records more than a day past their expiry, and no visitor sees it |
| Visits.HolderServesLive | cloud/cloud_store.py:72-85 | a worker serves a meet live exactly when it holds it, whatever is stored or on its card |
| Rollout.StepKeepsFleet | cloud/cloud_registry.py:811-907 | no operation leaves two nodes updating, or a target other than the rollout's version |
| Rollout.RunKeepsFleet | cloud/cloud_registry.py:811-907 | so in every run of start, stop, passes, heartbeats and forgotten nodes |
| Rollout.ReleasedOnceInTurn | cloud/cloud_registry.py:839-907 | no node is released twice in a rollout, and none before every node released earlier reports the version |
| Rollout.ReleaseSparesMeets | cloud/cloud_registry.py:839-907 | an unforced pass never releases a node carrying a running meet that is not a test meet, and takes the first by name of those it may |
| Rollout.DoneMeansDone | cloud/cloud_registry.py:887-893 | a rollout is called done only when every node heard from in 90 seconds reports its version |
| Rollout.ScheduleIsKept | cloud/cloud_registry.py:848-853 | before its time a scheduled rollout releases nothing and its pass changes nothing; with the time come it releases as a running one does |
| Rollout.NoneReleasedEarly | cloud/cloud_registry.py:848-853 | over any run no node is released by a scheduled rollout before its time |
| Rollout.ReleasesExactlyWhen | cloud/cloud_registry.py:839-907 | a pass releases a node exactly when the rollout is under way, none is updating, and a node heard from runs another version and carries no running meet or the rollout is forced |
| Rollout.ReleaseTakesEffect | cloud/cloud_registry.py:895-907 | the node released is told the version, timed from now, and no other node changes |
| Rollout.EndsExactlyWhen | cloud/cloud_registry.py:887-899 | with none updating a pass calls it done exactly when every node heard from runs the version, and waits exactly when all of the others carry a meet |
| Rollout.FailsExactlyWhen | cloud/cloud_registry.py:868-886 | it fails exactly when a node has not reported its target for a quarter of an hour, whose target alone is taken back |
| Rollout.BusyExactlyWhen | cloud/cloud_registry.py:856-867 | a node is busy exactly with a live meet that is running today or sent a frame in two hours, of an organizer not for tests |
| Rollout.StartedAsAsked | cloud/cloud_registry.py:811-836 | a rollout starts as asked with no earlier target left, and stopping one under way stops it and takes none back |
| Rollout.ReleasedIsTold | cloud/cloud_registry.py:500-505 | a heartbeat tells a node to update exactly from its release to its report |
| Rollout.StepLeft | cloud/cloud_registry.py:839-907 | each release or completed node takes exactly one off twice the nodes behind less the one updating, giving a node up adds one, and nothing else changes it |
| Rollout.RolloutAccounts | cloud/cloud_registry.py:811-907 | over any run left to itself the releases and completions made and what is left add up to what there was: it cannot go on for ever |
| Rollout.FindBusy | cloud/cloud_registry.py:856-867 | the busy nodes are exactly those holding a running meet that is not a test meet |
| Rollout.Pass | cloud/cloud_registry.py:839-907 | the pass over sorted lists of rows takes the branch, the node and the note the specification does by sets |
| Rollout.Control.StartRollout | cloud/cloud_registry.py:811-828 | every earlier target is cleared, and one pass made |
| Rollout.Control.AdvanceRollout | cloud/cloud_registry.py:839-907 | the pass with the meets running at that moment |
| MeetWatch.ReportedHasRested | cloud/cloud_follows.py:506-536 | a heat a settle reports was named by the console, alone, for at least the hold, and is further on than the one before; a console that never rests so long reports none |
| MeetWatch.RestedIsReported | cloud/cloud_follows.py:506-536 | conversely a heat further on that the console names and stays on for the hold is reported by the first settle from then |
| MeetWatch.HeldIsRest | cloud/cloud_follows.py:506-520 | over any time-ordered run the change being held is the heat the console rests on, held no longer than it rested |
| MeetWatch.RestMeaning | cloud/cloud_follows.py:506-520 | a rest began with a frame naming the heat, and every frame since that names one names the same |
| MeetWatch.RestIsHeld | cloud/cloud_follows.py:506-536 | settles too early and frames that name the same or nothing leave a held change as it is |
| MeetWatch.Console.ReadFrame | cloud/cloud_follows.py:506-520 | reading a frame starts, keeps or drops a held change and notes the start of the current heat, as specified |
| MeetWatch.Console.SettleAt | cloud/cloud_follows.py:522-536 | settling promotes what has been held long enough, and answers the heat only when it is further on |
| MeetWatch.Console.LearnChangeover | cloud/cloud_follows.py:540-555 | the changeover is the clamped median of the last eight gaps, gathered heat by heat |
| MeetWatch.MedianIsMiddle | cloud/cloud_follows.py:540-555 | the median has half of the gaps at or below it and half at or above, midway between the middle two |
| MeetWatch.Console.Estimate | cloud/cloud_follows.py:563-588 | the estimate summed heat by heat is the specified one on every branch |
| MeetWatch.EtaKeepsLateness | cloud/cloud_follows.py:575-582 | on one day a scheduled heat is expected exactly as late as the current one began, by its start, else its selection or now |
| MeetWatch.EtaSumsSwims | cloud/cloud_follows.py:583-588 | without schedules it is expected once each heat from the current one on has swum and changed over, never before now |
| MeetWatch.EtaOnOtherDays | cloud/cloud_follows.py:563-577 | before the first heat and on another day only what is scheduled for today is expected, at its time; no lateness carries over days, and nothing reached is expected |
| MeetWatch.GapIs | cloud/cloud_follows.py:540-551 | a changeover counts exactly between a heat and the next with a swim, both begun under ten minutes apart, as the time beyond the swim |
| MeetWatch.SteadyMeetIsLearned | cloud/cloud_follows.py:540-555 | a meet that changes over in a steady time is expected to go on so, within 15 to 180 seconds; before its second heat, in 45 |
| MeetWatch.LastEightDecide | cloud/cloud_follows.py:552-555 | two meets whose last eight changeovers are alike expect the same |
| MeetWatch.TimesStand | cloud/cloud_follows.py:506-536 | over every run a heat's start and selection, once noted, stand |
| MeetWatch.StartIsFirstRunning | cloud/cloud_follows.py:506-520 | over every run a heat's start is the first frame with a lane running while it was the current heat |
| MeetWatch.SelectionIsItsRest | cloud/cloud_follows.py:522-536 | a heat is noted as selected when the console came to rest on it, not when the hold was up |
| MeetWatch.EtaFollowsRunningOrder | cloud/cloud_follows.py:563-588 | with no schedule for the current heat and one day of heats the estimate is never in the past and never goes back along the running order |
| MeetWatch.EtaFollowsSchedule | cloud/cloud_follows.py:563-588 | between scheduled heats estimates differ exactly as the schedule does |
| MeetWatch.LeadIsFirstHeats | cloud/cloud_follows.py:557-561 | a lead of n heats covers exactly the first n heats with swimmers after the current one |
| MeetWatch.SwumFromMembers | cloud/cloud_follows.py:557-561 | those heats are the ones with swimmers, each once, in running order |
| Follows.MinutesWindowIsInitial | cloud/cloud_follows.py:632-647 | when a heat is inside a lead in minutes, so is every heat before it after the current one |
| Follows.HeatsWindowIsFirst | cloud/cloud_follows.py:632-640 | inside a lead in heats is exactly the first so many heats with swimmers after the current one, and the next of them is announced as next |
| Follows.HeatsPhraseCounts | cloud/cloud_follows.py:632-640 | the others are announced by how many heats there are to go |
| Follows.MinutesWindow | cloud/cloud_follows.py:641-647 | a lead in minutes takes a heat not reached exactly when it is expected within so many times sixty seconds, and announces the minutes to go, rounded up and at least one |
| Follows.AnnouncedByTheClock | cloud/cloud_follows.py:575-647 | so a scheduled heat is announced from its lead before its time, put off by as much as the current heat began late |
| Follows.FoundMeansMatch | cloud/cloud_follows.py:308-321 | a name is found in a heat exactly where it folds to a followed swimmer's, in a lane of that club when one is given |
| Follows.WantedMeaning | cloud/cloud_follows.py:650-683 | a device is told of a heat one of its swimmers is in: that it is on the console exactly when it was just reached and the device asked for that, that it is coming exactly inside the lead, and never of a heat passed |
| Follows.NoteSays | cloud/cloud_follows.py:609-680 | a note names its device and heat, exactly the followed swimmers in it with their lanes, and when, unless the console just reached it |
| Follows.DueFor | cloud/cloud_follows.py:650-683 | for one device: exactly the marks wanted and not sent, each once, each note saying what it should |
| Follows.Due | cloud/cloud_follows.py:650-683 | for all devices: the notes carry exactly what is wanted and was not sent, each once, and exactly that is added to what was sent |
| Follows.WantedByMeaning | cloud/cloud_follows.py:655-672 | what is wanted of a device is one mark for each heat that asks for one |
| HandOvers.SentAtMostOnce | cloud/cloud_follows.py:719-750 | over any run of single blocks, with evaluations and registers between those of a hand-over, crashes, dead tokens and sweeps, a notification is sent at most once more than it was forgotten |
| HandOvers.StepExposure | cloud/cloud_follows.py:229-302 | each committed block exposes a mark to one more sending exactly when it forgets it |
| HandOvers.EvaluatesInTwoBlocks | cloud/cloud_follows.py:719-750 | the reading and the marking of an evaluation leave the store as the evaluation does and send exactly what it had to tell |
| HandOvers.CrashLosesUnsent | cloud/cloud_follows.py:719-750 | a crash keeps what is marked, so what was marked and not sent is not sent after it; an evaluation and a hand-over under way are gone |
| HandOvers.ExportCarriesShelf | cloud/cloud_server.py:156-184 | a hand-over begins exactly for a meet someone follows, to another node, with none under way, and carries what the node holds |
| Follows.Store.Evaluate | cloud/cloud_follows.py:719-750 | one evaluation of the store sends exactly what is wanted of the devices it holds and not marked, each once, and marks exactly that, at this meet only |
| HandOvers.DropForgetsOnlyLateMarks | cloud/cloud_server.py:156-184 | with no evaluation telling it between a hand-over's reading and its dropping, whatever else comes, the drop forgets no mark |
| HandOvers.DropForgetsUncarried | cloud/cloud_server.py:156-184 | a drop forgets exactly the marks made here that the other node has not |
| HandOvers.LateMarkSentTwice | cloud/cloud_server.py:156-184 | an answered hand-over with one evaluation in between, after which a notification is sent twice |
| HandOvers.LateFollowIsDropped | cloud/cloud_server.py:156-184 | a device that registers in between does not follow on the other node |
| HandOvers.RefusedHandOverSendsTwice | cloud/cloud_server.py:156-184 | a run with a refused hand-over that sends a notification twice |
| HandOvers.AnsweredHandOverKeepsMarks | cloud/cloud_server.py:156-184 | with no evaluation and no register in between, an answered hand-over leaves the Pi's new node with exactly what it had joined with all there was |
| HandOvers.MarksStayFollowed | cloud/cloud_follows.py:157-193 | stores keep marks only of devices that follow, as long as none stops between an evaluation's reading and its marking |
| Follows.PutTouchesOneDevice | cloud/cloud_follows.py:157-248 | a device that sends follows replaces its own and keeps its marks; one that sends none, or whose token is dead, goes with its marks; no other is touched |
| Follows.JoinedBringsItsOwn | cloud/cloud_follows.py:281-302 | of a device followed on both nodes the follows brought count, and the marks of both |
| Follows.CarryOver | cloud/cloud_follows.py:275-302 | exporting a meet and importing it elsewhere brings exactly what was there, and touches no other meet |
| Follows.Rows | cloud/cloud_follows.py:208-221 | the exported rows say exactly what the table holds of the meet |
| Follows.Store.Put | cloud/cloud_follows.py:157-193 | a device's follows are replaced whole; none stops it and forgets its marks; other meets stay |
| Follows.Store.MarkFired | cloud/cloud_follows.py:229-238 | exactly these marks are added, at this meet only |
| Follows.Store.DropToken | cloud/cloud_follows.py:241-247 | a dead token goes from every meet, follows and marks |
| Follows.Store.DropMeet | cloud/cloud_follows.py:250-255 | a meet goes whole, and no other |
| Follows.Store.ClearFired | cloud/cloud_follows.py:258-264 | a meet's marks go and its follows stay |
| Follows.Store.Export | cloud/cloud_follows.py:275-278 | what is exported is what the store holds of the meet |
| Follows.Store.Import | cloud/cloud_follows.py:281-302 | rows put one by one join what was there, a row with no swimmers skipped |
| Relay.LateJoinerConverges | cloud/cloud_server.py:956-983 | for every interleaving of frames, sends, joins, snapshots and departures, an attendee that was sent its snapshot shows the frames received merged in order, the clock aside, once the one on its way has reached it |
| Relay.AttendeesAgree | cloud/cloud_server.py:956-983 | so any two of them show the same between frames, however late one joined |
| Relay.ShowsLastSaid | cloud/cloud_server.py:815-853 | key by key, an attendee sent its snapshot shows what a frame last said of the key, unless that frame is still on its way to it; and the cache holds the same |
| Relay.DeliverShows | cloud/cloud_server.py:815-853 | a frame that reaches an attendee is shown over what it showed, its clock too, and nobody else changes |
| Relay.RunIsConsistent | cloud/cloud_server.py:815-853 | the invariant behind it: the frame on its way is in the cache and nobody shows what is not |
| Relay.StepKeepsConsistent | cloud/cloud_server.py:815-853 | each single step keeps it, a departure in the middle of a send included |
| Relay.CacheIsMerge | cloud/cloud_server.py:826-837 | the cache is the fold of every frame received, without its clock |
| Relay.CachesAlike | server/state.py:480-492 | the Pi's replay cache, which drops the clock after merging, and the cloud's, which drops it before, are the same after any frames |
| Relay.ThrottledApart | cloud/cloud_server.py:839-851 | between registers two clocks sent for the time passed alone are at least two seconds apart, whatever lanes moved between |
| Relay.ThrottleRate | cloud/cloud_server.py:71-71 | so in any stretch of L seconds at most floor(L/2) + 1 of them go out |
| Relay.ClockStaysFresh | cloud/cloud_server.py:839-851 | after any frame with a clock the last one sent is under two seconds old, and is this frame's own when a lane moved |
| Relay.ClockGoesOutWhen | cloud/cloud_server.py:829-853 | the clock goes out with its frame exactly two seconds after the last or with a lane's running flag, and the rest of every frame to every attendee |
| Relay.ClockGoesOutAfterRegister | cloud/cloud_server.py:765-765 | after a register the next frame with a clock sends it, and what is cached and who attends stand |
| Relay.ClockAtIsLastSent | cloud/cloud_server.py:839-851 | the time kept is that of the last clock sent |
| Relay.LiveMeet.Forward | cloud/cloud_server.py:842-853 | the frame goes out with its clock exactly when that is due |
| Relay.AnyLane | cloud/cloud_server.py:847-849 | looking at the keys one by one finds a running flag exactly when there is one |
| WorkerMeets.ServedExactlyWhile | cloud/cloud_server.py:745-806 | over any run a meet is served exactly while the last socket to register it is connected and no socket that had registered it has moved on since; it is bound to that last socket |
| WorkerMeets.ServedWhileConnected | cloud/cloud_server.py:745-806 | where no socket registers a second meet, exactly while its last socket is connected |
| WorkerMeets.StaleSocketDropsMeet | cloud/cloud_server.py:748-751 | three registers after which a meet is gone though its socket is connected |
| WorkerMeets.RunIsConsistent | cloud/cloud_store.py:26-55 | every live meet's socket maps back to that meet |
| WorkerMeets.OneMeetPerSocket | cloud/cloud_store.py:26-55 | no socket ever publishes two meets |
| WorkerMeets.StaleDisconnectChangesNoMeet | cloud/cloud_server.py:798-806 | the disconnect of a socket its meet is no longer bound to leaves every meet as it is |
| WorkerMeets.BoardIsForwarded | cloud/cloud_server.py:815-837 | a served meet caches the frames of the sockets that registered it and no others, across every re-register |
| WorkerMeets.MeetOfIsBound | cloud/cloud_server.py:745-806 | the socket table says which meet each connected socket last registered |
| WorkerMeets.Sockets.Register | cloud/cloud_server.py:745-778 | registering binds the meet, keeps what was cached for it, and answers the live meet it displaced |
| WorkerMeets.Sockets.Disconnect | cloud/cloud_server.py:798-806 | a disconnect retires exactly the meet still bound to the socket |
| Board.RunIsConsistent | scoreboard/board.py:1869-1942 | over every run and any timer order: paused exactly while one callback carries the current token; not paused, the table is visible or fading in and shows the names last sent |
| Board.ShowsWhatWasSent | scoreboard/board.py:2046-2170 | over every run a board that is not paused shows in every lane the name last sent for it since a reset |
| Board.HoldsWhatWasSent | scoreboard/board.py:2046-2104 | over every run the names, the heat and the lanes that swim are what was last sent: a flag stands until another, a reset, or another heat over results |
| Board.StepKeepsConsistent | scoreboard/board.py:1869-1942 | each single step keeps it |
| Board.UpdateKeeps | scoreboard/board.py:2046-2170 | a frame with any mix of heat, flags and names keeps it |
| Board.OneChain | scoreboard/board.py:1869-1921 | paused, exactly one step can be the transition's next; otherwise none |
| Board.PausedPictureStands | scoreboard/board.py:2164-2167 | a step that leaves the table paused paints nothing |
| Board.SwapIsUnseen | scoreboard/board.py:1909-1916 | the next heat is painted while the table cannot be seen, and then fades in |
| Board.FadeMovesOn | scoreboard/board.py:1918-1929 | a fade only moves the opacity on, between where it is and where it goes |
| Board.RaceShowsTable | scoreboard/board.py:2078-2104 | a frame that starts lanes on a still board runs them and shows the table at once, with no callback left to touch it, exactly when it does not itself begin a transition |
| Board.NewHeatStopsLanes | scoreboard/board.py:2088-2104 | a new heat on top of results stops every lane, those its own frame starts too |
| Board.PauseEnds | scoreboard/board.py:1869-1916 | until another heat comes a paused board is out of its pause after at most three of its callbacks, whatever else happens |
| Board.StepRank | scoreboard/board.py:1869-1916 | each live callback takes exactly one off what is left, nothing else but a new heat sets it back, and that one to its start |
| Board.BoardWindow.BeginHeatTransition | scoreboard/board.py:1869-1896 | results on screen pause the table under a new token; without any nothing happens |
| Board.BoardWindow.CancelHeatTransition | scoreboard/board.py:1931-1942 | a cancel makes every callback stale and shows the current state |
| Board.BoardWindow.TransitionSwap | scoreboard/board.py:1909-1916 | the swap paints, unpauses and fades in, for the current token only |
| Board.BoardWindow.TimerFires | scoreboard/board.py:1898-1907 | each timer sets the next step, for the current token only |
| Board.BoardWindow.OnContentFadeFinished | scoreboard/board.py:1918-1921 | the end of a fade calls what was stored for it once |
| Board.BoardWindow.Refresh | scoreboard/board.py:2182-2186 | every row shows what the frames so far say |
| Board.BoardWindow.ApplyUpdate | scoreboard/board.py:2046-2170 | a frame is merged, may begin a transition, may cancel it for a race, and repaints the rows it names unless paused |
| Board.BoardWindow.ResetBoard | scoreboard/board.py:2399-2414 | a reset empties the board, shown at once |
| TestMeets.HeatTakes | cloud/cloud_testmeets.py:363-441 | every wait is forward and they add up to the time on the blocks, the slowest final and the results held |
| TestMeets.ClockNeverGoesBack | cloud/cloud_testmeets.py:415-438 | the clock the frames carry is each moment's own and never goes back |
| TestMeets.LaneSwimsItsLengths | cloud/cloud_testmeets.py:402-438 | each lane's splits come as 1 to n in order, and its running flag is cleared exactly once, with the last |
| TestMeets.TouchesAscend | cloud/cloud_testmeets.py:402-411 | a lane touches each wall later than the one before and the last at its final |
| TestMeets.LengthTakes | cloud/cloud_testmeets.py:402-411 | every length after the first takes six hundredths longer than it |
| TestMeets.TicksAreSeconds | cloud/cloud_testmeets.py:414-414 | a tick comes at exactly each whole second to the end of the slowest swim |
| TestMeets.PlacesFollowFinals | cloud/cloud_testmeets.py:416-439 | places are 1 to k in the order of the finals, ties by lane, every lane having one |
| TestMeets.PlacesSentAreFinishers | cloud/cloud_testmeets.py:421-437 | the places the frames carry are the finishers', each with its lane and final, in order, and no other touch carries one |
| TestMeets.SnapshotsAreFirstFinishers | cloud/cloud_testmeets.py:331-360 | the j-th results snapshot holds exactly the first j finishers, by place in the order they came, otherwise by lane |
| TestMeets.LaneTouches | cloud/cloud_testmeets.py:405-411 | adding length to length gives each touch its share of the final |
| TestMeets.Touches | cloud/cloud_testmeets.py:402-413 | every lane's touches, each once, and the slowest final |
| TestMeets.Ticks | cloud/cloud_testmeets.py:414-414 | one tick for each whole second of the race |
| TestMeets.SortMomentsOrders | cloud/cloud_testmeets.py:412-417 | the sorted moments are the same, each strictly before the next |
| TestMeets.RaceFrames | cloud/cloud_testmeets.py:415-441 | the loop over the moments, with its clock, places and finals, sends the specified frames |
| TestMeets.HeatFrames | cloud/cloud_testmeets.py:363-441 | the frames generated are those of all the heat's touches and ticks, in order, and no others |
| TestMeets.HeatIsUnique | cloud/cloud_testmeets.py:363-441 | the draws leave a heat only one run of frames |
| TestPass.ValidatedIsPrefix | cloud/cloud_testmeets.py:536-574 | after k heats of a pass the validated ones are exactly the first of them, at least k - 2 and at most k - 1 |
| TestPass.ResultsStand | cloud/cloud_testmeets.py:293-303 | a validated heat's results never change |
| TestPass.AddedMeansFurther | cloud/cloud_testmeets.py:293-303 | a round adds a heat exactly when it takes the prefix further |
| TestPass.Validate | cloud/cloud_testmeets.py:293-303 | what is ready is entered, what is there stays, and the answer is true exactly when one was added |
| TestPass.Swim | cloud/cloud_testmeets.py:536-574 | the pass's loop leaves the book the rounds say, and sends exactly the books it comes to, each with more heats than the one before |
| RecordCache.RunIsBounded | cloud/cloud_node.py:164-205 | for any number of threads: never more than 2048 cards are kept, never more than 8 calls are in flight, and the slots not free are exactly those, so each is given back however its call ends |
| RecordCache.AnswersAreLastCached | cloud/cloud_node.py:164-183 | a lookup that did not hear from the control plane answers nothing, or what was last cached for the id when it looked |
| RecordCache.AnswersAreHeard | cloud/cloud_node.py:179-205 | one that did answers what this very lookup heard |
| RecordCache.RunIsHonest | cloud/cloud_node.py:164-205 | everything kept or answered from is what the control plane said of that very id |
| RecordCache.RecordsAreLastCached | cloud/cloud_node.py:164-205 | a kept entry is the last one cached for its id |
| RecordCache.NoCallWhileFresh | cloud/cloud_node.py:170-179 | a call goes out only for an id of which, when its lookup looked, the cache kept no card younger than 15 seconds and no lack of one younger than 5 |
| RecordCache.LookOf | cloud/cloud_node.py:168-176 | every lookup under way began with its own look, and answers from the entry that found |
| RecordCache.UpToDateUnlessStored | cloud/cloud_node.py:164-205 | where none stored the id since, that entry is still the last cached, and nothing fresh of the id is kept when the call goes out |
| RecordCache.CallDespiteFresh | cloud/cloud_node.py:170-179 | where another did, a call goes out although a fresh entry is kept |
| RecordCache.OlderAnswer | cloud/cloud_node.py:176-184 | and when it fails, the older card is answered |
| RecordCache.EvictionTakesOldest | cloud/cloud_node.py:195-204 | no entry evicted is newer than one kept, and the cut stops at the ceiling once only fresh ones are left |
| RecordCache.NewestIsKept | cloud/cloud_node.py:193-204 | the entry just stored is kept while it is the newest |
| RecordCache.Victims | cloud/cloud_node.py:195-204 | the aged out and then the oldest, one by one, are such a cut |
| RecordCache.Worker.Keep | cloud/cloud_node.py:193-204 | storing an entry leaves the cache within its ceiling, cut so |
| RecordCache.Worker.FetchMeet | cloud/cloud_node.py:164-205 | one lookup on every path: what it answers, what it keeps, and its slot given back |
| RecordCache.CallsOutWhen | cloud/cloud_node.py:164-190 | a lookup calls out exactly where the id can be one, a slot is free and what is kept is too old; otherwise, or with no usable answer, what is kept answers however old |
| RecordCache.ValidIdMeans | cloud/cloud_node.py:60-68 | an id is looked up exactly when it is 1 to 64 letters, digits, underscores and dashes, with or without a line end after them |
| RecordCache.IdStaysInPath | cloud/cloud_node.py:60-68 | no id that is looked up holds a slash, a dot or a question mark |
| Loader.NoRequestLost | scoreboard/client.py:107-146 | whenever the loader is idle, a fetch that began after every request so far has come to its end |
| Loader.RunIsConsistent | scoreboard/client.py:107-146 | busy exactly while there is a worker, a repeat noted only then, and a fetch older than the last request always repeated |
| Loader.OneWorker | scoreboard/client.py:124-130 | there is never a second worker |
| Loader.WorkEnds | scoreboard/client.py:132-146 | with no more requests each step of the worker takes it closer to idle |
| Loader.ScheduleLoader.Ask | scoreboard/client.py:124-130 | a request starts a worker exactly when none is at work, and else notes a repeat |
| Loader.ScheduleLoader.Done | scoreboard/client.py:142-146 | after a fetch the worker goes on exactly when a repeat was noted |
| Calendar.CloudAgreesWithPi | server/relay.py:228-296 | for what the Pi computes at one offset, the cloud takes a meet off the picker exactly when the Pi calls it over and the keep it registered with has run out |
| Calendar.MeetEndsLast | server/relay.py:228-246 | no session ends after the meet, which ends with a session of its last day or, if none of those has an end, at the midnight after it |
| Calendar.LatestEndIsLatest | server/relay.py:236-243 | the last end of a date's sessions is one of them and none is later |
| Calendar.OverADayAfter | server/relay.py:249-291 | a meet is over exactly 24 hours after its end and not on its last day; a keep lasts to 72 hours after it and is offered from then to that |
| Calendar.RetiredEndsAtMidnight | cloud/cloud_registry.py:365-383 | a retired meet is off the picker exactly from the midnight after its last day at the pool |
| Calendar.RunsOnSessionDays | cloud/cloud_registry.py:345-354 | a meet as its Pi registers it runs exactly on its session days and for two hours from a frame |
| Heats.HeatOrder | server/meet_data.py:145-160 | the running order has exactly the loaded meet's heats, of a start list or of a file without one, each before the next |
| Heats.StartListOrder | server/meet_data.py:156-159 | a start list's heats by event and then by heat |
| Heats.SortHeats | server/meet_data.py:160-160 | the heats sorted are the same heats, in order |
| Heats.StepIsNext | server/meet_data.py:163-180 | a step on goes to the very next heat, and nowhere only from the last |
| Heats.StepsUndo | server/meet_data.py:163-180 | a step back undoes a step on, and the other way about |
| Heats.NextVisitsAll | server/meet_data.py:163-180 | from a heat the meet does not have, Next visits every heat in order, once each, and rests on the last |
| Heats.PreviousStartsAtLast | server/meet_data.py:163-180 | from such a heat Previous goes to the last; with no heats nowhere |
| Heats.StepsEndAtEnds | server/meet_data.py:163-180 | a step of any length lands on a heat of the meet on its own side, or nowhere |
| Heats.SortNumbers | server/meet_data.py:156-160 | the numbers sorted are the same numbers, rising |
| Calendar.ClampsChangeNothing | cloud/cloud_registry.py:316-327 | the cloud's clamps change neither time the Pi sends |
| Calendar.KeepListsUntilDeadline | server/relay.py:261-291 | a meet that may be kept, once registered again, is listed until exactly the keep's deadline |
| Calendar.ListedAtMostThreeDaysPast | cloud/cloud_registry.py:304-383 | whatever was sent, a live meet is listed through its last pool day and gone from 72 hours after it |
| Calendar.UnreadableDate | cloud/cloud_registry.py:365-383 | what each side does with a last date that is no date |
| Calendar.AgreementThroughWorker | cloud/cloud_server.py:704-712 | with the end and the keep dropped on the way the two agree exactly outside the window named |
| Calendar.WorkerListsAnOverMeet | cloud/cloud_server.py:704-712 | a meet and a moment inside that window |
| Calendar.LastDateIsLatestDay | server/relay.py:299-307 | the last session date, a maximum of texts, is the latest day any session names |
| Calendar.LatestDateIsMaximum | server/relay.py:299-307 | it is one of the sessions' dates and none sorts after it |
| Calendar.DatePast | cloud/cloud_registry.py:357-374 | comparing the texts of two dates at an offset compares the instant with midnight after the first |
| IsoDate.IsoOrder | cloud/cloud_registry.py:371-374 | ISO texts sort as their dates do |
| IsoDate.ParseIso | cloud/cloud_registry.py:304-313 | a text is read as a date exactly when it is that date's ISO text |
| IsoDate.DayTextOrder | cloud/cloud_registry.py:357-374 | a day's text sorts before another's exactly when the day comes before it |
| IsoDate.DayExists | cloud/cloud_registry.py:304-313 | every day number of the calendar has its date |
| Clocks.ClockRoundTrip | scoreboard/format.py:13-54 | a clock printed reads back as it was |
| Clocks.TenthsRoundTrip | scoreboard/format.py:28-54 | in tenths it reads back without its last digit, at exactly the same width |
| Clocks.MatchSpells | scoreboard/format.py:10-25 | whatever is read as a clock spells one |
| Clocks.SpeltIsMatched | scoreboard/format.py:10-25 | and whatever spells one is read as that one |
| Clocks.ClockIsInjective | scoreboard/format.py:28-54 | two times print alike only when they are the same |
| Clocks.DeltasAgree | server/meet_data.py:20-42 | the web page, the TV and a test meet print the same text for the same gap |
| Clocks.DeltaIsSignedClock | server/meet_data.py:20-28 | a delta's text is its sign and the clock of its size |
| Clocks.DeltaReads | scoreboard/format.py:57-89 | the text says exactly what the delta was, and a time is better exactly with a minus |
| Clocks.RoundSeconds | scoreboard/format.py:79-82 | the seconds sent recover the hundredths they came from |
| Clocks.RoundIsNearest | cloud/cloud_testmeets.py:94-119 | a time is rounded to the nearest hundredth, a tie to the even one |
| ConsoleTimes.MemoryIsReplay | server/state.py:274-332 | outside tests the times in memory are exactly what a reload would give |
| ConsoleTimes.LogIsSaved | server/state.py:289-342 | each meet's log replays to exactly what was saved of it since it was last discarded |
| ConsoleTimes.FinishTakesEffect | server/state.py:310-332 | a finished heat is remembered exactly when it has both numbers, and goes to the log of the loaded meet, and no other, exactly outside tests |
| ConsoleTimes.TestsLeaveLogs | server/state.py:310-332 | however many heats finish in a test, every log stays as it was |
| ConsoleTimes.RecordSurvives | server/state.py:289-332 | a heat newly recorded survives a reload exactly when the log ended with a line end |
| ConsoleTimes.TornLineCostsOneMore | server/state.py:289-332 | a torn line costs itself and the one record after it, and nothing more |
| ConsoleTimes.CleanLogTakesAll | server/state.py:310-332 | a log that ends with a line end keeps every record after it |
| ConsoleTimes.Board.RecordConsoleHeat | server/state.py:310-332 | a heat is remembered, and appended outside tests with a meet loaded |
| ConsoleTimes.Board.LoadMeet | server/state.py:289-307 | the replay, line by line, is the fold of the lines that read |
| ConsoleTimes.Board.DiscardConsoleTimes | server/state.py:335-342 | the times go from memory and disk |

## Left out

- SQL, HTTP, WebSockets, threads and Qt: each committed block, locked section, section between two awaits or timer callback is one step, and a message is taken to arrive in the order it was sent.
- Ids, keys, tickets, passwords and JSON are opaque values; an id is given, not hashed from its key.
- The organizer's key nulled with its row, a row's name, place, settings, picture and connection time: carried unchanged by everything modelled.
- Daylight saving: one fixed offset for a meet and one for the server; fractions of a second in the calendar.
- Dates in the undashed ISO form, and digits and white space outside ASCII.
- A move of a meet already moved overwrites the earlier move, so the claims about moves are about the last one.
- `MeetWatch.load` across a schedule change: the heats are fixed during a run.
- `evaluate` interleaved with itself for one meet, and two hand-overs of one meet at once: each comes one at a time, block by block. The worker's own note of which meets are followed, which may skip an evaluation, is not modelled.
- Two sockets forwarding for one meet at once: convergence is for one forwarding socket, whose frames come one after the other.
- `build_heats`, `table_secs` and the reading of race clocks and daytimes: heats arrive with their swims and times worked out.
- The wording, language and event names of notifications, and the pushing of them.
- Follows: `clean`'s trimming of a device's request; a stored follow is one it accepted.
- The results and next-heats channels of a worker, and `_merge_console_times`: whole values replaced or one entry added, with no state between.
- An attendee that reconnects across two live sessions of one meet may still hold keys of the first: the convergence claimed is within one session.
- The board's columns, podium, clock, lock flashes and other views; whether results are on screen is taken as any answer, and stopping a fade as not calling back.
- Test meets: building the meet, names and seeds, the pings and the speed; the draws are any values in their ranges, and the printed clock's rounding is in `Clocks` only.
- The control plane's expiry check inside `fetch_meet`: whether a card has expired is part of its answer.
- ConsoleTimes.MemoryIsReplay: a save that fails is not modelled, only a power cut in the middle of one.
- ConsoleTimes.RecordSurvives: what is asked of the encoding, that no line starting with all or part of a record reads back, is assumed of JSON objects, not proved of an encoder.
- Clocks.DeltasAgree: floating-point seconds are taken as exact hundredths.
- Analytics, sign-in, deployment, backups, hardware, locales and the event-name parser: easy or without state worth following.
