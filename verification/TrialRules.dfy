/** One trial from start to frozen result: what each thread's step does to the state
    the threads share, over every interleaving. */
module TrialRules {
  import opened Options
  import opened Core
  import opened Judging
  import opened Scoring
  import opened EngineRules

  /** A reading of the monotonic clock. */
  type Reading = x: int | 0 <= x <= INT64_MAX

  /** origin is 0 until START; the score is meaningful once finished. */
  datatype Trial = Trial(engine: View, origin: Reading, finished: bool, finalScore: ScoreSummary, stoppedEarly: bool,
                         running: bool)

  const NO_SCORE: ScoreSummary := ScoreSummary(0, 0, 0, 0, 0, 0, 0, 0)

  const OUTSIDE: string := "tap outside configured lane range"

  function Ready(engine: View): Trial {
    Trial(engine, 0, false, NO_SCORE, false, true)
  }

  function Invalidate(v: View, text: string): View {
    if v.reason.Some? then v else v.(reason := Some(Host(if text == "" then "run invalidated by host" else text)))
  }

  function Start(t: Trial, now: Reading): Trial {
    if t.origin == 0 then t.(origin := now) else t
  }

  function Since(t: Trial, now: Reading): TimeNs {
    now - t.origin
  }

  function TapLane(t: Trial, lane: nat, now: Reading): Trial
    requires t.engine.lanes <= MAX_LANES == |t.engine.feedback|
  {
    if t.origin == 0 || t.finished then t
    else if lane >= t.engine.lanes then t.(engine := Invalidate(t.engine, OUTSIDE))
    else t.(engine := Step(t.engine, Tap(Since(t, now), lane)))
  }

  /** The three things a tap can do. */
  lemma TapCases(t: Trial, lane: nat, now: Reading)
    requires t.engine.lanes <= MAX_LANES == |t.engine.feedback|
    ensures t.origin == 0 || t.finished ==> TapLane(t, lane, now) == t
    ensures t.origin != 0 && !t.finished && lane >= t.engine.lanes ==>
              TapLane(t, lane, now) == t.(engine := Invalidate(t.engine, OUTSIDE))
    ensures t.origin != 0 && !t.finished && lane < t.engine.lanes ==>
              TapLane(t, lane, now) == t.(engine := Step(t.engine, Tap(now - t.origin, lane)))
  {
  }

  function Fault(t: Trial, text: string): Trial {
    if t.finished then t else t.(engine := Invalidate(t.engine, text))
  }

  /** unfinished is what the aborting thread saw before it took the lock. */
  function Abort(t: Trial, text: string, unfinished: bool): Trial {
    (if unfinished then Fault(t, text).(stoppedEarly := true) else t).(running := false)
  }

  function Finish(t: Trial, now: Reading): Trial {
    if t.origin != 0 && !t.finished && Since(t, now) >= FINISH
    then t.(finalScore := Tally(t.engine.notes, t.engine.records, Scored), finished := true)
    else t
  }

  // ----- runs ---------------------------------------------------------------------

  /** offered and spoiled are history: every tap on a lane of this trial since START, and
      whether something other than the log's capacity made the run invalid. */
  datatype World = World(trial: Trial, clock: Reading, offered: seq<Tap>, spoiled: bool)

  datatype Move = StartAt(startTime: Reading)
                | TapAt(lane: nat, tapTime: Reading)
                | FaultWith(fault: string)
                | AbortWith(why: string, unfinished: bool)
                | CheckAt(checkTime: Reading)

  /** The input thread's readings never go back; other threads use none. */
  predicate Enabled(w: World, m: Move) {
    match m
    case StartAt(now) => w.clock <= now
    case TapAt(_, now) => w.clock <= now
    case CheckAt(now) => w.clock <= now
    case AbortWith(_, unfinished) => unfinished ==> w.trial.origin != 0
    case FaultWith(_) => true
  }

  /** A fault, an early abort or a tap outside the lanes, before the result froze. */
  predicate Spoils(t: Trial, m: Move) {
    !t.finished &&
    match m
    case TapAt(lane, _) => t.origin != 0 && lane >= t.engine.lanes
    case FaultWith(_) => true
    case AbortWith(_, unfinished) => unfinished
    case _ => false
  }

  /** The taps offered once this move is made. */
  function Offers(w: World, m: Move): seq<Tap> {
    if m.TapAt? && w.trial.origin != 0 && m.lane < w.trial.engine.lanes
    then w.offered + [Tap(m.tapTime - w.trial.origin, m.lane)] else w.offered
  }

  function Apply(w: World, m: Move): World
    requires Enabled(w, m) && w.trial.engine.lanes <= MAX_LANES == |w.trial.engine.feedback|
  {
    World(match m
          case StartAt(now) => Start(w.trial, now)
          case TapAt(lane, now) => TapLane(w.trial, lane, now)
          case FaultWith(text) => Fault(w.trial, text)
          case AbortWith(text, unfinished) => Abort(w.trial, text, unfinished)
          case CheckAt(now) => Finish(w.trial, now),
          match m
          case StartAt(now) => now
          case TapAt(_, now) => now
          case CheckAt(now) => now
          case _ => w.clock,
          Offers(w, m), w.spoiled || Spoils(w.trial, m))
  }

  predicate Runs(w: World, moves: seq<Move>)
    decreases |moves|
  {
    moves == [] || (w.trial.engine.lanes <= MAX_LANES == |w.trial.engine.feedback| &&
                    Enabled(w, moves[0]) && Runs(Apply(w, moves[0]), moves[1..]))
  }

  function After(w: World, moves: seq<Move>): World
    requires Runs(w, moves)
    decreases |moves|
  {
    if moves == [] then w else After(Apply(w, moves[0]), moves[1..])
  }

  /** Sound engine, a clock that never went back, and a log that misses nothing. */
  predicate Inv(w: World, chart: seq<Note>) {
    var t, v := w.trial, w.trial.engine;
    && Sound(v, chart) && v.reason != Some(WentBackwards)
    && t.origin <= w.clock
    && (if t.origin == 0 then v.lastInput == INT64_MIN else v.lastInput <= w.clock - t.origin)
    && (t.finished ==> t.origin != 0 && w.clock - t.origin >= FINISH && t.finalScore == Tally(v.notes, v.records, Scored))
    && (v.reason.None? ==> TapsOf(v.records) == Accountable(w.offered, v.lanes))
    && (v.reason.None? <==> !w.spoiled && |Accountable(w.offered, v.lanes)| <= v.maxEvents)
  }

  lemma StepLogs(v: View, tap: Tap)
    requires v.lanes <= MAX_LANES == |v.feedback| && tap.lane < v.lanes && Step(v, tap).reason.None?
    ensures TapsOf(Step(v, tap).records) == TapsOf(v.records) + (if InputStage(tap.time) != NoStage then [tap] else [])
  {
    if InputStage(tap.time) == NoStage {
      assert TapsOf(v.records) + [] == TapsOf(v.records);
    }
  }

  lemma OfferOne(taps: seq<Tap>, tap: Tap, lanes: nat)
    requires tap.lane < lanes
    ensures Accountable(taps + [tap], lanes) == Accountable(taps, lanes) + (if InputStage(tap.time) != NoStage then [tap] else [])
  {
    assert (taps + [tap])[..|taps|] == taps;
  }

  /** What a tap on a lane leaves of validity and the clock, in an engine whose log holds
      what was offered so far. */
  lemma StepValidity(v: View, offered: seq<Tap>, spoiled: bool, tap: Tap)
    requires v.lanes <= MAX_LANES == |v.feedback| && tap.lane < v.lanes && v.lastInput <= tap.time && |v.records| <= v.maxEvents
    requires v.reason.None? ==> TapsOf(v.records) == Accountable(offered, v.lanes)
    requires v.reason.None? <==> !spoiled && |Accountable(offered, v.lanes)| <= v.maxEvents
    requires v.reason != Some(WentBackwards)
    ensures var u := Step(v, tap);
            && u.reason != Some(WentBackwards) && u.lanes == v.lanes && u.maxEvents == v.maxEvents
            && u.lastInput <= tap.time
            && (u.reason.None? ==> TapsOf(u.records) == Accountable(offered + [tap], v.lanes))
            && (u.reason.None? <==> !spoiled && |Accountable(offered + [tap], v.lanes)| <= v.maxEvents)
  {
    OfferOne(offered, tap, v.lanes);
    if Step(v, tap).reason.None? { StepLogs(v, tap); }
  }

  /** A tap of a running trial goes through the engine. */
  lemma JudgedTapIs(w: World, lane: nat, now: Reading)
    requires w.trial.engine.lanes <= MAX_LANES == |w.trial.engine.feedback| && Enabled(w, TapAt(lane, now))
    requires w.trial.origin != 0 && !w.trial.finished && lane < w.trial.engine.lanes
    ensures var tap := Tap(now - w.trial.origin, lane);
            Apply(w, TapAt(lane, now)) == World(w.trial.(engine := Step(w.trial.engine, tap)), now, w.offered + [tap], w.spoiled)
  {
  }

  lemma SteppedKeeps(w: World, chart: seq<Note>, u: View, tap: Tap, now: Reading)
    requires Inv(w, chart) && w.clock <= now && w.trial.origin != 0 && !w.trial.finished && tap.time == now - w.trial.origin
    requires Sound(u, chart) && u.reason != Some(WentBackwards) && u.lastInput <= tap.time
    requires u.reason.None? ==> TapsOf(u.records) == Accountable(w.offered + [tap], u.lanes)
    requires u.reason.None? <==> !w.spoiled && |Accountable(w.offered + [tap], u.lanes)| <= u.maxEvents
    ensures Inv(World(w.trial.(engine := u), now, w.offered + [tap], w.spoiled), chart)
  {
  }

  lemma JudgedTapKeeps(w: World, chart: seq<Note>, lane: nat, now: Reading)
    requires Inv(w, chart) && w.clock <= now && w.trial.origin != 0 && !w.trial.finished && lane < w.trial.engine.lanes
    ensures Inv(Apply(w, TapAt(lane, now)), chart)
  {
    var v, tap := w.trial.engine, Tap(now - w.trial.origin, lane);
    StepKeepsSound(v, chart, tap);
    StepValidity(v, w.offered, w.spoiled, tap);
    JudgedTapIs(w, lane, now);
    SteppedKeeps(w, chart, Step(v, tap), tap, now);
  }

  lemma LateTapIs(w: World, lane: nat, now: Reading)
    requires w.trial.engine.lanes <= MAX_LANES == |w.trial.engine.feedback| && Enabled(w, TapAt(lane, now))
    requires w.trial.origin != 0 && w.trial.finished && lane < w.trial.engine.lanes
    ensures Apply(w, TapAt(lane, now)) == World(w.trial, now, w.offered + [Tap(now - w.trial.origin, lane)], w.spoiled)
  {
  }

  /** A tap after the result froze is too late to be judged. */
  lemma LateTapKeeps(w: World, chart: seq<Note>, lane: nat, now: Reading)
    requires Inv(w, chart) && w.clock <= now && w.trial.finished && lane < w.trial.engine.lanes
    ensures Inv(Apply(w, TapAt(lane, now)), chart) && InputStage(now - w.trial.origin) == NoStage
  {
    OfferOne(w.offered, Tap(now - w.trial.origin, lane), w.trial.engine.lanes);
    assert Accountable(w.offered, w.trial.engine.lanes) + [] == Accountable(w.offered, w.trial.engine.lanes);
    LateTapIs(w, lane, now);
  }

  lemma TapKeeps(w: World, chart: seq<Note>, lane: nat, now: Reading)
    requires Inv(w, chart) && w.clock <= now
    ensures Inv(Apply(w, TapAt(lane, now)), chart)
  {
    if w.trial.origin != 0 && lane < w.trial.engine.lanes {
      if w.trial.finished { LateTapKeeps(w, chart, lane, now); } else { JudgedTapKeeps(w, chart, lane, now); }
    }
  }

  lemma MoveKeeps(w: World, chart: seq<Note>, m: Move)
    requires Inv(w, chart) && Enabled(w, m)
    ensures Inv(Apply(w, m), chart)
  {
    match m
    case TapAt(lane, now) => TapKeeps(w, chart, lane, now);
    case _ =>
  }

  lemma {:induction false} RunsKeep(w: World, chart: seq<Note>, moves: seq<Move>)
    requires Inv(w, chart) && Runs(w, moves)
    ensures Inv(After(w, moves), chart)
    decreases |moves|
  {
    if moves != [] {
      MoveKeeps(w, chart, moves[0]);
      RunsKeep(Apply(w, moves[0]), chart, moves[1..]);
    }
  }

  function Fresh(lanes: nat, maxEvents: nat, chart: seq<Note>, clock: Reading): World {
    World(Ready(Initial(lanes, maxEvents, chart)), clock, [], false)
  }

  lemma FreshIsOk(lanes: nat, maxEvents: nat, chart: seq<Note>, clock: Reading)
    requires lanes <= MAX_LANES && ChartAccepted(lanes, chart)
    ensures Inv(Fresh(lanes, maxEvents, chart, clock), chart)
  {
    InitialIsSound(lanes, maxEvents, chart);
    assert TapsOf([]) == [];
  }

  /** Once finished, no later step of any thread changes validity, the log or the
      scored result. */
  lemma {:induction false} ResultIsFrozen(w: World, moves: seq<Move>)
    requires w.trial.finished && Runs(w, moves)
    ensures var u := After(w, moves);
            u.trial.finished && u.trial.engine == w.trial.engine && u.trial.finalScore == w.trial.finalScore
    decreases |moves|
  {
    if moves != [] {
      ResultIsFrozen(Apply(w, moves[0]), moves[1..]);
    }
  }

  /** In every run the engine never sees time go back, and while it is valid its log
      holds exactly the taps offered inside a judging window, also those offered after
      the result froze: none of them was left out. */
  lemma NoScoredTapIsMissed(lanes: nat, maxEvents: nat, chart: seq<Note>, clock: Reading, moves: seq<Move>)
    requires lanes <= MAX_LANES && ChartAccepted(lanes, chart)
    requires Runs(Fresh(lanes, maxEvents, chart, clock), moves)
    ensures var w := After(Fresh(lanes, maxEvents, chart, clock), moves);
            && w.trial.engine.reason != Some(WentBackwards)
            && (w.trial.engine.reason.None? ==> TapsOf(w.trial.engine.records) == Accountable(w.offered, w.trial.engine.lanes))
  {
    FreshIsOk(lanes, maxEvents, chart, clock);
    RunsKeep(Fresh(lanes, maxEvents, chart, clock), chart, moves);
  }

  /** A finished trial's score is the tally of its log, with every note of the scored
      stage accounted for. */
  lemma FinalScoreIsConserved(lanes: nat, maxEvents: nat, chart: seq<Note>, clock: Reading, moves: seq<Move>)
    requires lanes <= MAX_LANES && ChartAccepted(lanes, chart) && CapacityValid(maxEvents)
    requires Runs(Fresh(lanes, maxEvents, chart, clock), moves)
    requires After(Fresh(lanes, maxEvents, chart, clock), moves).trial.finished
    ensures var t := After(Fresh(lanes, maxEvents, chart, clock), moves).trial;
            var s := t.finalScore;
            && s == Tally(t.engine.notes, t.engine.records, Scored)
            && s.perfect + s.good + s.missed == s.notes == NoteCount(chart, Scored) && s.missed >= 0
            && s.rawScore == 2 * s.perfect + s.good - 5 * s.empty
  {
    FreshIsOk(lanes, maxEvents, chart, clock);
    RunsKeep(Fresh(lanes, maxEvents, chart, clock), chart, moves);
    var w := After(Fresh(lanes, maxEvents, chart, clock), moves);
    RunsKeepCapacity(Fresh(lanes, maxEvents, chart, clock), moves);
    ResultsAreConserved(w.trial.engine, chart, Scored);
  }

  /** The frozen score of a valid trial is what replaying every tap offered, in order,
      against the chart by the naive rule gives. */
  lemma FinalScoreIsReplay(lanes: nat, maxEvents: nat, chart: seq<Note>, clock: Reading, moves: seq<Move>)
    requires lanes <= MAX_LANES && ChartAccepted(lanes, chart)
    requires Runs(Fresh(lanes, maxEvents, chart, clock), moves)
    requires var t := After(Fresh(lanes, maxEvents, chart, clock), moves).trial; t.finished && t.engine.reason.None?
    ensures var w := After(Fresh(lanes, maxEvents, chart, clock), moves);
            var taps := Accountable(w.offered, w.trial.engine.lanes);
            w.trial.finalScore == Tally(chart, Replay(chart, taps), Scored)
  {
    FreshIsOk(lanes, maxEvents, chart, clock);
    RunsKeep(Fresh(lanes, maxEvents, chart, clock), chart, moves);
    SameTally(After(Fresh(lanes, maxEvents, chart, clock), moves).trial.engine, chart, Scored);
  }

  lemma {:induction false} RunsKeepCapacity(w: World, moves: seq<Move>)
    requires Runs(w, moves)
    ensures After(w, moves).trial.engine.maxEvents == w.trial.engine.maxEvents
    ensures After(w, moves).trial.engine.lanes == w.trial.engine.lanes
    decreases |moves|
  {
    if moves != [] { RunsKeepCapacity(Apply(w, moves[0]), moves[1..]); }
  }

  /** A trial is valid exactly when nothing spoiled it before its result froze and the taps
      offered in a judging window fit the log. */
  lemma TrialValidExactly(lanes: nat, maxEvents: nat, chart: seq<Note>, clock: Reading, moves: seq<Move>)
    requires lanes <= MAX_LANES && ChartAccepted(lanes, chart)
    requires Runs(Fresh(lanes, maxEvents, chart, clock), moves)
    ensures var w := After(Fresh(lanes, maxEvents, chart, clock), moves);
            w.trial.engine.reason.None? <==> !w.spoiled && |Accountable(w.offered, lanes)| <= maxEvents
  {
    FreshIsOk(lanes, maxEvents, chart, clock);
    RunsKeep(Fresh(lanes, maxEvents, chart, clock), chart, moves);
    RunsKeepCapacity(Fresh(lanes, maxEvents, chart, clock), moves);
  }

  // ----- when a trial starts and ends, said of its moves ------------------------------

  /** The first nonzero reading given to START, after the given origin. */
  function StartedAt(origin: Reading, moves: seq<Move>): Reading
    decreases |moves|
  {
    if moves == [] then origin
    else StartedAt(if origin == 0 && moves[0].StartAt? then moves[0].startTime else origin, moves[1..])
  }

  /** Move k looks at the clock 61.04 s or more after the start. */
  predicate LooksDone(origin: Reading, moves: seq<Move>, k: nat) {
    && k < |moves| && moves[k].CheckAt? && StartedAt(origin, moves[..k]) != 0
    && moves[k].checkTime - StartedAt(origin, moves[..k]) >= 61_040_000_000
  }

  predicate Aborts(moves: seq<Move>, k: nat) {
    k < |moves| && moves[k].AbortWith?
  }

  predicate AbortsEarly(moves: seq<Move>, k: nat) {
    Aborts(moves, k) && moves[k].unfinished
  }

  lemma LooksLater(origin: Reading, moves: seq<Move>, k: nat)
    requires moves != []
    ensures var next := if origin == 0 && moves[0].StartAt? then moves[0].startTime else origin;
            LooksDone(origin, moves, k + 1) <==> LooksDone(next, moves[1..], k)
  {
    if k < |moves| - 1 { assert moves[..k + 1][1..] == moves[1..][..k]; }
  }

  lemma MoveStartsOrEnds(w: World, m: Move)
    requires Enabled(w, m) && w.trial.engine.lanes <= MAX_LANES == |w.trial.engine.feedback|
    ensures var t, u := w.trial, Apply(w, m).trial;
            && u.origin == (if t.origin == 0 && m.StartAt? then m.startTime else t.origin)
            && (u.finished <==> t.finished || (m.CheckAt? && t.origin != 0 && m.checkTime - t.origin >= 61_040_000_000))
            && (u.running <==> t.running && !m.AbortWith?)
            && (u.stoppedEarly <==> t.stoppedEarly || (m.AbortWith? && m.unfinished))
  {
  }

  /** In every run: the first START sets the origin for good; the result freezes exactly
      when some check finds the finish time passed, never before; and the loops stop
      exactly with an abort. */
  lemma {:induction false} StartsAndEnds(w: World, moves: seq<Move>)
    requires Runs(w, moves)
    ensures var t, u := w.trial, After(w, moves).trial;
            && u.origin == StartedAt(t.origin, moves)
            && (u.finished <==> t.finished || exists k: nat :: LooksDone(t.origin, moves, k))
            && (u.running <==> t.running && !exists k: nat :: Aborts(moves, k))
            && (u.stoppedEarly <==> t.stoppedEarly || exists k: nat :: AbortsEarly(moves, k))
    decreases |moves|
  {
    if moves != [] {
      var v := Apply(w, moves[0]);
      MoveStartsOrEnds(w, moves[0]);
      StartsAndEnds(v, moves[1..]);
      assert moves[..0] == [];
      forall k: nat
        ensures LooksDone(w.trial.origin, moves, k + 1) <==> LooksDone(v.trial.origin, moves[1..], k)
      {
        LooksLater(w.trial.origin, moves, k);
      }
      LaterMoves(w.trial.origin, v.trial.origin, moves);
    }
  }

  /** Something is so of some move when it is so of the first or of a later one. */
  lemma LaterMoves(origin: Reading, next: Reading, moves: seq<Move>)
    requires moves != [] && forall k: nat :: LooksDone(origin, moves, k + 1) <==> LooksDone(next, moves[1..], k)
    ensures (exists k: nat :: LooksDone(origin, moves, k)) <==>
            LooksDone(origin, moves, 0) || exists k: nat :: LooksDone(next, moves[1..], k)
    ensures (exists k: nat :: Aborts(moves, k)) <==> Aborts(moves, 0) || exists k: nat :: Aborts(moves[1..], k)
    ensures (exists k: nat :: AbortsEarly(moves, k)) <==> AbortsEarly(moves, 0) || exists k: nat :: AbortsEarly(moves[1..], k)
  {
    if k: nat :| LooksDone(origin, moves, k) {
      if k > 0 {
        var j: nat := k - 1;
        assert LooksDone(origin, moves, j + 1) && LooksDone(next, moves[1..], j);
      }
    }
    if k: nat :| Aborts(moves, k) {
      if k > 0 { assert Aborts(moves[1..], k - 1); }
    }
    if k: nat :| AbortsEarly(moves, k) {
      if k > 0 { assert AbortsEarly(moves[1..], k - 1); }
    }
    if k: nat :| LooksDone(next, moves[1..], k) { assert LooksDone(origin, moves, k + 1); }
    if k: nat :| Aborts(moves[1..], k) { assert Aborts(moves, k + 1); }
    if k: nat :| AbortsEarly(moves[1..], k) { assert AbortsEarly(moves, k + 1); }
  }

  // ----- the visible window ---------------------------------------------------------

  datatype RenderNote = RenderNote(lane: nat, target: TimeNs)

  predicate Visible(note: Note, now: TimeNs) {
    !note.consumed && now - GOOD_WINDOW <= note.target <= now + SECOND
  }

  function Shown(notes: seq<Note>, now: TimeNs): seq<RenderNote> {
    if notes == [] then []
    else
      var n := |notes| - 1;
      Shown(notes[..n], now) + if Visible(notes[n], now) then [RenderNote(notes[n].lane, notes[n].target)] else []
  }

  lemma {:induction false} NothingShown(notes: seq<Note>, now: TimeNs, k: nat)
    requires k <= |notes| && forall i :: k <= i < |notes| ==> !Visible(notes[i], now)
    ensures Shown(notes, now) == Shown(notes[..k], now)
    decreases |notes|
  {
    if k < |notes| {
      var n := |notes| - 1;
      NothingShown(notes[..n], now, k);
      assert notes[..n][..k] == notes[..k];
    } else {
      assert notes[..k] == notes;
    }
  }

  /** The list shows every unconsumed note of the window and nothing else. */
  lemma {:induction false} ShownExactly(notes: seq<Note>, now: TimeNs, r: RenderNote)
    ensures r in Shown(notes, now) <==>
            exists i :: 0 <= i < |notes| && Visible(notes[i], now) && r == RenderNote(notes[i].lane, notes[i].target)
  {
    if notes != [] {
      var n := |notes| - 1;
      ShownExactly(notes[..n], now, r);
      if i :| 0 <= i < |notes| && Visible(notes[i], now) && r == RenderNote(notes[i].lane, notes[i].target) {
        if i < n { assert notes[..n][i] == notes[i]; }
      }
      if i :| 0 <= i < n && Visible(notes[..n][i], now) && r == RenderNote(notes[..n][i].lane, notes[..n][i].target) {
        assert notes[i] == notes[..n][i];
      }
    }
  }

  function ShownOn(notes: seq<Note>, now: TimeNs, lane: nat): nat {
    if notes == [] then 0
    else
      var n := |notes| - 1;
      ShownOn(notes[..n], now, lane) + if Visible(notes[n], now) && notes[n].lane == lane then 1 else 0
  }

  lemma {:induction false} ShownSpreads(notes: seq<Note>, now: TimeNs, lane: nat) returns (last: int)
    requires LaneSpaced(notes)
    ensures ShownOn(notes, now, lane) > 0 ==>
              && 0 <= last < |notes| && notes[last].lane == lane && Visible(notes[last], now)
              && notes[last].target >= now - GOOD_WINDOW + (ShownOn(notes, now, lane) - 1) * LANE_LOCK
  {
    last := -1;
    if notes != [] {
      var n := |notes| - 1;
      last := ShownSpreads(notes[..n], now, lane);
      if Visible(notes[n], now) && notes[n].lane == lane {
        if ShownOn(notes[..n], now, lane) > 0 {
          assert notes[n].target - notes[last].target >= LANE_LOCK;
        }
        last := n;
      }
    }
  }

  function ShownBelow(notes: seq<Note>, now: TimeNs, lanes: nat): nat {
    if lanes == 0 then 0 else ShownBelow(notes, now, lanes - 1) + ShownOn(notes, now, lanes - 1)
  }

  lemma {:induction false} ShownBelowStep(notes: seq<Note>, now: TimeNs, lanes: nat)
    requires notes != []
    ensures var n := |notes| - 1;
            ShownBelow(notes, now, lanes) ==
            ShownBelow(notes[..n], now, lanes) + if Visible(notes[n], now) && notes[n].lane < lanes then 1 else 0
  {
    if lanes > 0 { ShownBelowStep(notes, now, lanes - 1); }
  }

  lemma {:induction false} ShownBelowEmpty(now: TimeNs, lanes: nat)
    ensures ShownBelow([], now, lanes) == 0
  {
    if lanes > 0 { ShownBelowEmpty(now, lanes - 1); }
  }

  lemma {:induction false} ShownByLane(notes: seq<Note>, now: TimeNs, lanes: nat)
    requires forall i :: 0 <= i < |notes| ==> notes[i].lane < lanes
    ensures |Shown(notes, now)| == ShownBelow(notes, now, lanes)
  {
    if notes == [] {
      ShownBelowEmpty(now, lanes);
    } else {
      ShownByLane(notes[..|notes| - 1], now, lanes);
      ShownBelowStep(notes, now, lanes);
    }
  }

  lemma {:induction false} ShownBelowBound(notes: seq<Note>, now: TimeNs, lanes: nat)
    requires LaneSpaced(notes)
    ensures ShownBelow(notes, now, lanes) <= 26 * lanes
  {
    if lanes > 0 {
      ShownBelowBound(notes, now, lanes - 1);
      var last := ShownSpreads(notes, now, lanes - 1);
    }
  }

  /** At most 26 notes a lane are visible at once, 416 on sixteen lanes, inside the
      512 the snapshot reserves. */
  lemma ShownFits(lanes: nat, notes: seq<Note>, now: TimeNs)
    requires ChartAcceptedPart(lanes, notes) && lanes <= MAX_LANES
    ensures forall lane: nat :: ShownOn(notes, now, lane) <= 26
    ensures |Shown(notes, now)| <= 26 * lanes <= 416 < 512
  {
    forall lane: nat
      ensures ShownOn(notes, now, lane) <= 26
    {
      var last := ShownSpreads(notes, now, lane);
    }
    ShownByLane(notes, now, lanes);
    ShownBelowBound(notes, now, lanes);
  }

  /** What consumption leaves of an accepted chart: order, lanes and spacing. */
  predicate ChartAcceptedPart(lanes: nat, notes: seq<Note>) {
    Sorted(notes) && LaneSpaced(notes) && forall i :: 0 <= i < |notes| ==> notes[i].lane < lanes
  }

  lemma SoundKeepsPart(v: View, chart: seq<Note>)
    requires Sound(v, chart)
    ensures ChartAcceptedPart(v.lanes, v.notes)
  {
    RemainingSameChart(chart, TapsOf(v.records), 0);
    forall i | 0 <= i < |chart|
      ensures chart[i].lane == v.notes[i].lane && chart[i].target == v.notes[i].target
    {
      var x, y := chart[i].(consumed := true), v.notes[i].(consumed := true);
      assert x == y;
    }
  }

  /** The notes of a sound engine are in order, and few of them are visible at once. */
  lemma WindowFits(v: View, chart: seq<Note>, now: TimeNs)
    requires Sound(v, chart)
    ensures Sorted(v.notes) && |Shown(v.notes, now)| <= 416
  {
    SoundKeepsPart(v, chart);
    ShownFits(v.lanes, v.notes, now);
  }
}
