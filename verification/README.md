# CHERS: a verified model

CHERS is a real-time rhythm benchmark: a game publishes frames through shared
memory, a player taps lanes over a local socket, and a judgement engine scores the
taps. This project models its hard parts in Dafny and proves properties of the
model for all inputs, all interleavings and all runs.

**Frame lease** (`Wire`, `ServerRules`, `ClientRules`, `FrameServer`, `FrameClient`,
`LeaseSystem`, `LeaseProofs`, `LeaseTheorems`, `LeaseRefinement`, `LeaseProgress`). The server owns three frame slots in
shared memory and lends one at a time. `ServerRules` and `ClientRules` are the two
halves as step functions; the classes `FrameServer` and `FrameClient` do the same in
place, with the program's loops, and are proved equal to them; and what each step
function does is proved once more from the packets and answers alone. A read call is a
program counter moved by the environment's answers, so every blocked send, timeout,
retry and single copied byte is a step of its own. `LeaseSystem` runs one server and
any number of successive connections over two first-in first-out channels each, in
any interleaving; behind a connection is the client library or a raw peer that sends
whatever it likes. `LeaseProofs` shows that an invariant over both sides, the packets
in flight and the slot bytes survives every step; `LeaseTheorems` draws the promises
from it, those about the library for its connections and those about delivery for
all; `LeaseRefinement` shows that whole polls and publications are runs of the single
steps, and `LeaseProgress` that the server and a waiting client alone can always bring
a read to success. The environment is assumed to deliver packets in order, and to
report a send on a connection the server has closed as disconnected.

**Judgement and replay** (`Core`, `Judging`, `GreedyMatching`, `Scoring`, `EngineRules`,
`JudgementEngine`, `ReplayRules`, `ReplayAudit`). `Judging` states the rule naively:
a tap takes the earliest unconsumed note of its lane and stage within 20 ms. The
engine class with cursors and consumption flags is proved to be that rule; the
replay tool, which has cursors only and running totals, is proved to accept exactly
the evidence an engine run produces. The greedy rule is proved optimal against all
one-to-one assignments.

**Charts** (`Generator`, `GeneratorTheorems`). The generator is a loop over an arbitrary
stream of 64-bit words; the exponential wait is an arbitrary function of a word, floored
at 1 ns. `GeneratorTheorems` says where every attempt of a chart went.

**Trial** (`TrialRules`, `TrialState`). The object the threads share: start, taps,
faults, the frozen result, and the window of notes shown.

**Vision bridge** (`BridgeRules`, `VisionBridge`, `BridgeProofs`, `BridgeOutcomes`). The
deadline queue of explicit actions with its late-drop rules. The heap is the ordered sequence it
presents to the scheduler. Clock readings are inputs that never go backwards.

**Pixel agent** (`TrackerRules`, `TrackAssociation`, `AgentRules`, `PixelAgent`).
Note tracks from quantised positions, and the choice of the next tap. Floating-point
times are reals. `TrackAssociation` finds the exact jitter up to which the 18 ms
threshold, the 40 ms lane lock and 330 rows a second keep tracks apart.

**Drawing** (`Geometry`, `Raster`). Note rows, lane edges, clipped rectangles and the
lane fill over a flat pixel buffer.

The project checks with `dafny verify dfyconfig.toml`.

## Model

| member | source | states |
|---|---|---|
| ServerRules.PublishSlot | src/ipc.cpp:215-226 | the slot a publication writes always exists and is neither the lent nor the latest one |
| ServerRules.HandleKeepsOk | src/ipc.cpp:182-209 | whatever packet a peer sends, lease, request and reply variables stay consistent |
| ServerRules.RespondKeepsOk | src/ipc.cpp:135-149 | answering a request keeps them consistent, whatever the send does, and lends the newest frame, newer than the client's last |
| ServerRules.AcceptKeepsClient | src/ipc.cpp:163-181 | accepting connections never replaces a client and changes nothing else |
| ServerRules.AcceptExactly | src/ipc.cpp:163-181 | a server without a client takes exactly the first welcome connection of the first eight tries that only interruptions and unwelcome ones precede; accepting throws exactly when it failed in those tries before nobody was waiting |
| ServerRules.HandleExactly | src/ipc.cpp:182-209 | a packet ends the connection exactly when it is neither a well-formed input nor the request or release the lease allows at that point; otherwise it does just what it says |
| ServerRules.RespondExactly | src/ipc.cpp:135-149 | nothing happens unless a reply is owed; then a send done or blocked lends the newest frame, and any other send ends the connection |
| ServerRules.DrainExactly | src/ipc.cpp:236-254 | receiving takes every packet up to the one place where it must stop: client gone, capacity used, nothing to read, a wrong size or a closed connection |
| ServerRules.ServicedExactly | src/ipc.cpp:254-260 | after receiving, a client is dropped for overflow exactly when its capacity is used and more is waiting; otherwise it is replied to if owed |
| ServerRules.ServicedBound | src/ipc.cpp:229-260 | one poll queues at most its packets plus two events |
| ServerRules.QueueNeverGrows | src/ipc.cpp:111-114 | in every interleaving of publications and polls, failed accepts included, the event queue stays within its reserve |
| FrameServer.FrameServer.Disconnect | src/ipc.cpp:127-134 | dropping a client releases its lease and its requests and queues exactly one event, and is a no-op without a client |
| FrameServer.FrameServer.ReplyIfReady | src/ipc.cpp:135-149 | the in-place reply is the step function: armed only by a newer frame, retried when blocked |
| FrameServer.FrameServer.HandlePacket | src/ipc.cpp:182-209 | the in-place packet handler is the step function, with all its protocol errors |
| FrameServer.FrameServer.Publish | src/ipc.cpp:215-227 | the new slot holds exactly the visible pixels of the source image for any stride, other slots keep their bytes, and bad arguments change nothing |
| FrameServer.FrameServer.CopyRows | src/ipc.cpp:219-222 | the row loop copies the frame out of a wider image and touches no other slot |
| FrameServer.FrameServer.AcceptPending | src/ipc.cpp:163-181 | at most eight tries, one client at a time, as the step function that AcceptExactly characterises |
| FrameServer.FrameServer.ReceiveAll | src/ipc.cpp:236-254 | the receive loop is the step function: interruptions retried, bad sizes and closed sockets disconnect |
| FrameServer.FrameServer.Poll | src/ipc.cpp:229-265 | a poll hands over all queued events in order and leaves the queue empty, unless accepting threw |
| FrameClient.FrameClient.SendUntil | src/client.cpp:85-92 | the retry loop ends with the packet sent once or with the first failure |
| FrameClient.FrameClient.ReadFrame | src/client.cpp:165-206 | the call with its nested loops does, for every complete list of environment answers, exactly what the step function does; its code, the client's variables and the caller's buffer are those the answers call for |
| ClientRules.CallReadsExactly | src/client.cpp:165-206 | the code of a call is decided by its last answer: success exactly when a newer usable reply was copied and its release sent or blocked, timeout, lost and system error exactly on those answers, protocol error exactly on an unusable reply; the frame is the bytes read |
| FrameClient.FrameClient.CopyFrame | src/client.cpp:196-200 | the byte copy and the lease bookkeeping after it |
| FrameClient.FrameClient.TapLane | src/client.cpp:208-211 | a lane above 15 is refused; otherwise the packet offered is one the server accepts as that tap, and the code tells which of the four ways the send ended |
| FrameClient.FrameClient.Control | src/client.cpp:212-217 | start and stop offer packets the server accepts as such, and the code tells how the send ended |
| LeaseProofs.HandleRaises | src/ipc.cpp:182-209 | any packet of any peer raises its own event if it is a well-formed input, else at most the one protocol error that ends the connection |
| LeaseProofs.TakeKeepsJoint | src/ipc.cpp:182-209 | in the joint invariant, the next packet in flight is never a protocol error, and taking it keeps the invariant |
| LeaseProofs.ReplyKeepsJoint | src/ipc.cpp:135-149 | a reply sent is one the client accepts, and keeps the invariant |
| LeaseProofs.SendKeepsJoint | src/client.cpp:170-180 | a request or release sent, or blocked, keeps the invariant |
| LeaseProofs.ReceiveKeepsJoint | src/client.cpp:181-192 | a reply received keeps the invariant |
| LeaseProofs.ByteKeepsJoint | src/client.cpp:193-201 | the byte copy keeps the copied part equal to the published frame |
| LeaseProofs.InstalledKeepsMemory | src/ipc.cpp:215-226 | after a publication every numbered slot holds the frame published under its number |
| LeaseProofs.StepKeepsInv | src/ipc.cpp:215-265 | every enabled step of server or client keeps the whole-system invariant |
| LeaseProofs.EnabledStepsRun | src/ipc.cpp:215-265 | the array sizes the steps rely on always hold, so every enabled step can be taken |
| LeaseProofs.RunsKeepInv | src/ipc.cpp:215-265 | and so does every run |
| LeaseTheorems.NoTornFrame | src/client.cpp:181-206 | in every run, whatever raw peers send on other connections, every successful read returned exactly the bytes published under its number, and numbers strictly increase per connection |
| LeaseTheorems.HistoryIsWhatWasPublished | src/ipc.cpp:215-226 | number n is the n-th image handed to publish |
| LeaseTheorems.PublishIsNeverBlocked | src/ipc.cpp:215-227 | in every run a publication in progress writes a slot that is neither lent nor latest |
| LeaseTheorems.LentSlotIsImmutable | src/client.cpp:193-196 | no step of any party changes a byte of a lent slot |
| LeaseTheorems.PublicationAnswersRequest | src/ipc.cpp:135-149 | a waiting request, of any peer, is answered by the next publication with that very frame |
| LeaseTheorems.MutualConformance | src/client.cpp:165-206 | in every run no protocol error is raised on either side of a library connection, and a served library client has at most one request outstanding |
| LeaseTheorems.JointHasOneRequest | src/ipc.cpp:198-202 | counting packets in flight, server flags and replies, there is at most one request, none unless the client is waiting |
| LeaseTheorems.InputDelivery | src/ipc.cpp:127-265 | for any peer, the events delivered for a connection are its well-formed inputs in the order sent, without gaps or repeats, then at most one terminal event (disconnection, protocol error or overflow), which an ended connection always gets; only a raw peer is blamed for a protocol error |
| LeaseTheorems.NothingLostWhileServed | src/ipc.cpp:236-254 | while a connection lives, every input sent is handled or still in flight |
| LeaseRefinement.PollIsSteps | src/ipc.cpp:229-265 | every poll, whatever it accepts, receives, rejects, loses or overflows on, does to the server's variables and hands to its callbacks what a run of the single steps does |
| LeaseRefinement.PublishIsSteps | src/ipc.cpp:215-227 | and so does every publication, byte by byte |
| LeaseProgress.ReadCanSucceed | src/client.cpp:165-206 | from every reachable state in which a served library client is between calls and a newer frame is published, steps of the server and that client alone lead to a successful read of a newer frame, exactly as published |
| Core.StageNeverRejects | src/core.cpp:41-64 | the stage test never rejects a note within 20 ms of a tap |
| Core.StageIsExact | src/core.cpp:58-64 | a tap belongs to a stage if and only if some target of that stage could be within 20 ms of it |
| Core.NamesAreDistinct | src/core.cpp:234-250 | the names written to evidence tell all stages and judgements apart |
| Judging.WindowHoldsTwo | src/core.cpp:187-197 | at most two notes of a lane are within 20 ms of a tap, two only at the exact midpoint |
| Judging.EarliestIsNearest | src/core.cpp:187-197 | the note taken has the smallest absolute delay of all eligible ones, the earlier on a tie |
| Judging.JudgedExactly | src/core.cpp:180-202 | a judged tap is Empty exactly when no unconsumed note of its lane is within 20 ms, else a hit on the nearest one, Perfect exactly when one is within 8 ms |
| Judging.ConsumesExactly | src/core.cpp:188-197 | and exactly the note it names is consumed |
| GreedyMatching.GreedyIsMaximal | src/core.cpp:180-197 | no one-to-one assignment of a lane's taps to notes within 20 ms beats the greedy rule |
| GreedyMatching.GreedyIsMatching | src/core.cpp:180-197 | and the greedy rule is itself such an assignment |
| Judging.ReplayPrefix | src/core.cpp:159-202 | what a tap is judged depends only on the taps before it |
| Scoring.HitsAreDistinct | src/core.cpp:188-196 | no note is hit twice |
| Scoring.MissedNeverUnderflows | src/core.cpp:225-225 | hits never exceed notes, and the rest are the unconsumed ones |
| Scoring.NoOverflow | src/core.cpp:137-139 | the accepted log capacity keeps score and delay sums within signed 64 bits |
| Scoring.LaneCapacity | src/core.cpp:146-156 | at most 25 notes a lane and second of a stage |
| Scoring.ChartFitsReserve | src/core.cpp:96-96 | an accepted chart has at most lanes times 25 times 55 notes |
| Scoring.CapacityIsReached | src/core.cpp:146-156 | for every number of lanes an accepted chart with strictly increasing targets reaches the bound |
| Scoring.TallyIsExact | src/core.cpp:204-228 | a summary counts each kind once per judgement, adds up the published points, and adds each delay or 100 ms for an empty tap |
| EngineRules.StepKeepsSound | src/core.cpp:159-202 | after any input, in or out of order, log and consumption flags are the naive replay of the logged taps |
| EngineRules.OutcomeIsExact | src/core.cpp:159-202 | the caller is told Invalid exactly when the run is or becomes invalid, Ignored exactly when a valid run logs nothing, and else the judgement logged |
| EngineRules.ValidRunLogsEverything | src/core.cpp:159-202 | a run is valid exactly when time never went back and the log sufficed, and then the log holds every tap of a judging window |
| EngineRules.RunMatchesOptimally | src/core.cpp:180-197 | in every run the hits on a lane are the maximum any assignment of its recorded taps could reach |
| EngineRules.ResultsAreConserved | src/core.cpp:204-228 | perfect plus good plus missed is the number of notes, the raw score follows the formula, and sums fit 64 bits, in every state |
| EngineRules.HitsNameDistinctNotes | src/core.cpp:188-196 | hits in a log name pairwise distinct notes |
| EngineRules.CursorFindsFirst | src/core.cpp:180-190 | the note under the advanced cursor is the naive rule's choice, or there is none |
| EngineRules.AcceptStep | src/core.cpp:146-156 | checking a note against running maxima decides the whole chart |
| JudgementEngine.CheckChart | src/core.cpp:141-156 | the constructor's loop accepts exactly the acceptable charts and indexes each lane completely, in order |
| JudgementEngine.Create | src/core.cpp:133-157 | construction succeeds exactly on acceptable configuration, capacity and chart |
| JudgementEngine.Engine.Match | src/core.cpp:180-197 | the matching step agrees with the naive rule and moves the cursor past what is spent |
| JudgementEngine.Engine.Hit | src/core.cpp:159-202 | state and result are the naive rule's; every note behind a cursor is spent for all later taps; cursors never retreat nor pass the lane's notes |
| JudgementEngine.Engine.Invalidate | src/core.cpp:230-232 | only the first cause of invalidity is kept |
| JudgementEngine.Engine.Results | src/core.cpp:204-228 | the aggregation loops compute the tally |
| ReplayRules.ReplayIsSound | tools/verify_run.py:215-319 | evidence that passes is what an engine built from its notes and fed its taps produces, rows and totals, and its generation counts balance and emit the chart's scored notes |
| ReplayRules.ReplayIsComplete | tools/verify_run.py:215-319 | evidence of any engine run on a generated chart passes |
| ReplayAudit.CheckNotes | tools/verify_run.py:215-241 | the note loop reports nothing exactly when the rows form a generated chart |
| ReplayAudit.MatchRow | tools/verify_run.py:262-270 | where the cursor loop stops and what it matches |
| ReplayAudit.CursorReplayMatches | tools/verify_run.py:262-291 | matching with cursors and no consumption flags agrees with the naive rule |
| ReplayAudit.CreditIsTally | tools/verify_run.py:271-285 | the running totals are the totals |
| ReplayAudit.ReplayInputs | tools/verify_run.py:243-291 | the input loop reports nothing exactly when the rows are the replay of their own taps |
| ReplayAudit.Verify | tools/verify_run.py:215-319 | the audit's note, input and integer-total checks pass exactly on evidence that is a generated chart, its replay and its totals |
| Generator.UniformBelow | src/core.cpp:17-23 | the loop returns the residue of the first word at or above the rejection limit |
| Generator.UniformIsExact | src/core.cpp:17-23 | for every bound, each residue is given by exactly the same number of accepted 64-bit words |
| Generator.UniformExactly | src/core.cpp:17-23 | a draw skips exactly the words among the 2^64 mod bound smallest, returns the residue of the first other, and fails only if there is none |
| Generator.UniformIsFair | src/core.cpp:17-23 | among all 64-bit words, every residue is drawn by the same number, 2^64 divided by the bound |
| Generator.Attempt | src/core.cpp:100-121 | an attempt ends the stage or advances its target, and keeps the chart acceptable, the locks exact and the counts balanced |
| GeneratorTheorems.AttemptExactly | src/core.cpp:100-121 | an attempt falls one wait after the last and ends the stage exactly past its end; with every lane locked it drops, otherwise it adds one note at its target, on the unlocked lane whose rank is the residue of the first accepted word; it gives up only when the words run out |
| GeneratorTheorems.ChartTraced | src/core.cpp:92-126 | every attempt a chart counts left a note at its target or fell while every lane was locked by notes of the chart, and every note is counted |
| GeneratorTheorems.GenerateReturns | src/core.cpp:92-126 | given enough words, none of the sixteen smallest among them, a chart is returned |
| Generator.DropsOnlyWhenLocked | src/core.cpp:113-116 | no lane is open to an attempt exactly when each has a note less than one lock before its target |
| Generator.Generate | src/core.cpp:92-126 | for any words and waits, the chart is accepted, has consecutive ids and strictly increasing targets, and its counts balance |
| Generator.GenerateStage | src/core.cpp:98-122 | the stage loop terminates, for given words, as time left in the stage shrinks |
| Generator.GenerateChart | src/core.cpp:92-126 | the generator does as specified or throws on a bad configuration |
| Generator.ExactPlayIsPerfect | src/core.cpp:159-202 | tapping every note of an accepted chart on time hits every one perfectly |
| Generator.GeneratedRunsReplay | tools/verify_run.py:215-319 | end to end: any taps on any generated chart leave evidence the audit accepts |
| TrialRules.ResultIsFrozen | src/main.cpp:231-236 | once finished, no later step of any thread changes validity, log or result |
| TrialRules.NoScoredTapIsMissed | src/main.cpp:143-149 | with a monotone clock the engine never sees time go back, and a valid log holds every tap offered in a judging window, also of those offered after the result froze |
| TrialRules.TrialValidExactly | src/main.cpp:139-153 | a trial is valid exactly when no fault, early abort or tap outside the lanes came before its result froze and the taps offered in a judging window fit the log |
| TrialRules.StartsAndEnds | src/main.cpp:142-236 | in every run the first start sets the origin for good, the result freezes exactly when some check finds 61.04 s passed, and the loops stop exactly with an abort |
| TrialRules.FinalScoreIsConserved | src/main.cpp:231-236 | the frozen score accounts for every scored note |
| TrialRules.FinalScoreIsReplay | src/main.cpp:231-236 | the frozen score of a valid trial is the naive replay of every tap offered |
| TrialRules.ShownExactly | src/main.cpp:176-181 | the window lists every unconsumed note between 20 ms ago and 1 s ahead, and nothing else |
| TrialRules.ShownFits | src/main.cpp:117-117 | at most 26 notes a lane and 416 in all are shown |
| TrialState.App.Tap | src/main.cpp:143-149 | a tap before start or after finish changes nothing; a lane out of range invalidates |
| TrialState.App.Abort | src/main.cpp:150-153 | an abort stops the loops, and one that lost the race with the finish leaves engine and score alone |
| TrialState.App.Finish | src/main.cpp:231-236 | the result is taken once, after the finish time |
| TrialState.App.Window | src/main.cpp:176-181 | binary search and walk find exactly the visible notes |
| TrialState.App.Snapshot | src/main.cpp:174-182 | only a running trial shows notes, never more than 416 |
| BridgeRules.InsertKeepsQueue | examples/codex_vision_bridge.py:478-478 | a push keeps the queue ordered by due time and id and adds one entry |
| VisionBridge.NativeVisionBridge.Push | examples/codex_vision_bridge.py:478-478 | the push is the ordered insertion |
| VisionBridge.NativeVisionBridge.Submit | examples/codex_vision_bridge.py:430-481 | a batch is refused for the first failed check with nothing changed, or accepted whole with every action scheduled or dropped, as the step function that SubmitHonours characterises |
| VisionBridge.NativeVisionBridge.DispatchDue | examples/codex_vision_bridge.py:483-497 | the dispatch loop takes entries in order while due, as the step function |
| VisionBridge.NativeVisionBridge.Fail | examples/codex_vision_bridge.py:346-352 | only the first error is recorded |
| VisionBridge.NativeVisionBridge.Close | examples/codex_vision_bridge.py:532-551 | a close that succeeds drops everything pending; one whose workers hang only sets the stop flag |
| BridgeProofs.BatchIsWhole | examples/codex_vision_bridge.py:462-479 | an accepted batch gives every action the next number, in order, in its lane, due its delay after the named receipt |
| BridgeOutcomes.ValidExactly | examples/codex_vision_bridge.py:441-451 | an action is valid exactly when it names a lane of the run, by number or letter, and a delay of 0 to 1000 ms; the order is for that lane and the nearest nanosecond, the even one on a tie |
| BridgeOutcomes.SubmitHonours | examples/codex_vision_bridge.py:430-481 | from the request to the log: a batch is taken exactly when all conditions hold, else nothing changes; every action taken is recorded with the next number, the lane and delay it asks for, due that long after its receipt, and waits unless more than 20 ms late |
| BridgeOutcomes.DispatchExactly | examples/codex_vision_bridge.py:483-497 | a dispatch takes the earliest entries, one a turn, exactly while they are due, sends those at most 20 ms late, drops the others, and ends early only by a tap that raises |
| BridgeOutcomes.CloseExactly | examples/codex_vision_bridge.py:543-551 | a first close abandons each waiting action once, earliest first, and a second changes nothing |
| BridgeOutcomes.ActionGoesOut | examples/codex_vision_bridge.py:405-497 | from a fresh bridge, an action submitted in time for a frame looked at is sent in the lane it names by a dispatch that finds it due |
| BridgeOutcomes.FlagsAreExact | examples/codex_vision_bridge.py:346-551 | in every run the bridge is broken exactly if a thread failed, stopped exactly if one did or a close began, closed exactly if a close finished |
| BridgeProofs.StepKeeps | examples/codex_vision_bridge.py:346-551 | every step of any thread keeps the scheduler's invariant |
| BridgeProofs.Conservation | examples/codex_vision_bridge.py:430-551 | in every run each proposed action is in exactly one of pending, sent or dropped, except one whose tap raised, and then the error is set or about to be |
| BridgeProofs.ClosedIsEmpty | examples/codex_vision_bridge.py:543-551 | after a successful close nothing is pending, ever |
| BridgeProofs.SendsAreOnTime | examples/codex_vision_bridge.py:487-497 | every recorded send is of an action as proposed, lane and due time, and between its due time and 20 ms after |
| BridgeProofs.DropsAreJustified | examples/codex_vision_bridge.py:473-492 | an action is dropped as late only when more than 20 ms past its due time by a reading already made, and abandoned only after a stop |
| BridgeProofs.SendsAreOrdered | examples/codex_vision_bridge.py:487-497 | equal dues go out in submission order; an earlier due sent later was submitted after the other had gone out, and the dues differ by at most 20 ms |
| TrackerRules.EstimateIsMean | examples/pixel_agent.cpp:308-312 | after any number of frames the incremental estimate is the plain mean of all observations |
| TrackerRules.MeanIsBetween | examples/pixel_agent.cpp:308-312 | the running mean moves towards a new observation but never reaches it |
| TrackerRules.ObserveKeepsLane | examples/pixel_agent.cpp:286-313 | for arbitrary observations a lane's tracks stay strictly sorted and all before its cursor tapped |
| TrackerRules.ObserveExactly | examples/pixel_agent.cpp:286-313 | an observation refines one track exactly when some track is within 18 ms of it; otherwise it makes one, unless more than 8 ms late, and touches no other |
| TrackerRules.SkipStops | examples/pixel_agent.cpp:342-344 | the cursor stops at the first untapped track |
| TrackerRules.ScanFindsEarliest | examples/pixel_agent.cpp:341-351 | the scan finds the minimum over all untapped tracks of all lanes, the lowest lane on a tie |
| TrackAssociation.SightIsWithin | examples/pixel_agent.cpp:286-288 | an observation is within half a pixel and the jitter of target plus base delay |
| TrackAssociation.KnownNote | examples/pixel_agent.cpp:290-312 | a note that has a track is matched to it and to no other |
| TrackAssociation.NewNote | examples/pixel_agent.cpp:293-305 | a note without one gets a track in note order, unless it is more than 8 ms late |
| TrackAssociation.SightsAssociate | examples/pixel_agent.cpp:286-313 | for any sequence of sights, a note has exactly one track if some sight of it was not late and none otherwise, and the estimate stays in the note's window |
| TrackAssociation.JitterSplitsTrack | examples/pixel_agent.cpp:292-293 | at 14.969697 ms of jitter the first note a chart can hold can get two tracks |
| TrackAssociation.JitterLimitIsExact | examples/pixel_agent.cpp:286-313 | association is right for all lanes a chart can hold and all sight sequences if and only if the jitter is at most 14.969696 ms |
| AgentRules.TappedOnce | examples/pixel_agent.cpp:366-370 | no track is tapped twice in any run |
| AgentRules.EarliestIsChosen | examples/pixel_agent.cpp:341-351 | at every point of every run the choice is the earliest untapped track, and there is one whenever any is untapped |
| AgentRules.TurnTapsEarliest | examples/pixel_agent.cpp:341-370 | at every point of every run a due turn with an untapped track taps the earliest of all, once, and logs its id; any other turn taps nothing |
| PixelAgent.Shared.Search | examples/pixel_agent.cpp:290-291 | binary search finds the first track not before the time |
| PixelAgent.Shared.Observe | examples/pixel_agent.cpp:286-313 | the in-place observation is the step function on its lane and leaves the others alone |
| PixelAgent.Shared.ObservedIsSight | examples/pixel_agent.cpp:286-313 | and is the sight step of the run rules |
| PixelAgent.Shared.Choose | examples/pixel_agent.cpp:333-351 | the in-place scan is the specified choice and moves each cursor to its first untapped track |
| PixelAgent.Shared.MarkTapped | examples/pixel_agent.cpp:367-370 | exactly the chosen track is marked |
| PixelAgent.Shared.TapNext | examples/pixel_agent.cpp:341-370 | a turn of the scheduler is the choose step of the run rules, so no track is tapped twice in place either |
| Geometry.NoteYIsNearest | src/render.cpp:218-227 | a visible note is drawn within half a row of its exact position, the lower row on a tie |
| Geometry.VisibleRows | examples/pixel_agent.cpp:204-207 | every visible note is centred on a row the tracker scans |
| Raster.LanesTile | include/chronolane/render.hpp:60-62 | lanes tile the width: every column is in one lane |
| Raster.LaneIsUnique | include/chronolane/render.hpp:60-62 | and in only one |
| Raster.Canvas.Rect | src/render.cpp:70-81 | exactly the pixels the rectangle covers change, wherever it lies, and none outside the canvas |
| Raster.Canvas.FillLanes | src/render.cpp:241-253 | every pixel gets its own lane's background or edge, so nothing of the previous frame is left |

## Left out

- Socket setup, credentials, the Hello handshake, memory sealing and descriptor passing: an established connection and a shared array are assumed.
- Receive times of transport events: an event carries its kind and lane; the trial model takes the time as an input.
- Callbacks that throw out of a poll, and fractional sends: the server drops the delivered batch, or treats the send as an error.
- Deadlines: a wait ends ready, timed out, hung up or in error, in any order the environment picks.
- The server's mutex is modelled as the rule that no other server step runs inside a publication.
- What a raw peer does with the frames it is lent, and its calls into the library: it only sends.
- The hardware random source, the logarithm of the exponential wait and the density that scales it: words are arbitrary, a wait is any function of a word with a floor of one nanosecond.
- Generator.Generate: a word stream that runs out ends the run without a chart, so that termination can be stated; the generator's own stream never ends.
- The normalised score, milliseconds and other floating-point report fields, their tolerance checks, and the 64-bit ranges the audit parses totals with: integers are compared.
- ReplayRules.ReplayIsSound: the delay totals compared are integers of nanoseconds; the tool compares milliseconds within a floating-point tolerance.
- ReplayRules.ReplayIsComplete: the score and millisecond fields the tool also compares are not part of the evidence.
- ReplayAudit.Verify: the audit's checks of entropy label, timeline table, density, timing distributions and report shape are not part of it.
- TrialState.App.Snapshot: the phase, feedback colours, validity and summary fields a snapshot also carries.
- The human input queue, window, processor affinity, sleeping and result files of the main program.
- VisionBridge.NativeVisionBridge.Observe: frame capture, PNG packaging and the observation capacity limits; the observation is given with its receipt time.
- VisionBridge.NativeVisionBridge.Submit: delays are real numbers, rounded half to even to nanoseconds; the rounding of the product in binary floating point is not modelled, and a lane letter is upper-cased only as far as it can reach A to P.
- BridgeOutcomes.ValidExactly: stated for the two to sixteen lanes the bridge's constructor accepts.
- The bridge's keyboard injection and the layout of its heap in memory.
- Reading frames by pixel: phases, feedback digits and note centres; the tracker is given rows, and frames the agent skips as stale only shorten the sequence.
- PixelAgent.Shared.Choose: the blind and idle modes, the deadline wait and the tap retry loop.
- Fonts, overlays, notes and the rest of the frame above the lane fill.
