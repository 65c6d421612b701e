/** The judgement engine: per-lane cursors and in-place consumption flags, proved
    to be the naive rule of module Judging, together with the facts that hold of
    every run of it. */
module EngineRules {
  import opened Options
  import opened Core
  import opened Judging
  import opened GreedyMatching
  import opened Scoring

  datatype Reason = WentBackwards | LogFull | Host(text: string)

  /** What the engine exposes, without its cursors. */
  datatype View = View(lanes: nat, maxEvents: nat, notes: seq<Note>, records: seq<Feedback>,
                       feedback: seq<Feedback>, lastInput: TimeNs, reason: Option<Reason>)

  const NO_FEEDBACK: Feedback := Feedback(0, 0, NO_NOTE, 0, NoStage, Ignored)

  predicate ConfigValid(lanes: int, density: real) {
    2 <= lanes <= 16 && 2.0 * lanes as real <= density <= 24.0 * lanes as real
  }

  predicate CapacityValid(maxEvents: nat) {
    0 < maxEvents <= INT64_MAX / EMPTY_PENALTY
  }

  function TapsOf(records: seq<Feedback>): seq<Tap> {
    seq(|records|, k requires 0 <= k < |records| => Tap(records[k].event, records[k].lane))
  }

  function Initial(lanes: nat, maxEvents: nat, chart: seq<Note>): View {
    View(lanes, maxEvents, chart, [], seq(MAX_LANES, _ => NO_FEEDBACK), INT64_MIN, None)
  }

  /** One input, judged by the naive rule. */
  function Outcome(v: View, tap: Tap): Feedback
    requires tap.lane < v.lanes
  {
    var stage := InputStage(tap.time);
    if v.reason.Some? || tap.time < v.lastInput then Feedback(tap.time, 0, NO_NOTE, tap.lane, stage, Invalid)
    else if stage == NoStage then Feedback(tap.time, 0, NO_NOTE, tap.lane, stage, Ignored)
    else if |v.records| == v.maxEvents then Feedback(tap.time, 0, NO_NOTE, tap.lane, stage, Invalid)
    else Judge(v.notes, tap)
  }

  function Step(v: View, tap: Tap): View
    requires v.lanes <= MAX_LANES == |v.feedback|
  {
    if tap.lane >= v.lanes || v.reason.Some? then v
    else if tap.time < v.lastInput then v.(reason := Some(WentBackwards))
    else
      var w := v.(lastInput := tap.time);
      if InputStage(tap.time) == NoStage then w
      else if |v.records| == v.maxEvents then
        w.(reason := Some(LogFull), feedback := v.feedback[tap.lane := Outcome(v, tap)])
      else
        w.(notes := NotesAfter(v.notes, tap), records := v.records + [Judge(v.notes, tap)],
           feedback := v.feedback[tap.lane := Judge(v.notes, tap)])
  }

  /** What the caller is told, said of the state before and after: Invalid exactly when
      the run is or becomes invalid, Ignored exactly when a valid run logs nothing, and
      otherwise the judgement that was logged. */
  lemma OutcomeIsExact(v: View, tap: Tap)
    requires v.lanes <= MAX_LANES == |v.feedback| && tap.lane < v.lanes
    ensures var w, fb := Step(v, tap), Outcome(v, tap);
            && fb.event == tap.time && fb.lane == tap.lane
            && (fb.kind == Invalid <==> w.reason.Some?)
            && (fb.kind == Ignored <==> w.reason.None? && w.records == v.records)
            && (fb.kind != Invalid && fb.kind != Ignored ==> w.records == v.records + [fb] && w.feedback[tap.lane] == fb)
            && (fb.kind == Invalid || fb.kind == Ignored ==> w.records == v.records && w.notes == v.notes && fb.noteId == NO_NOTE)
  {
    assert |v.records + [Judge(v.notes, tap)]| > |v.records|;
  }

  // ----- what every state of a run satisfies --------------------------------

  predicate Sound(v: View, chart: seq<Note>) {
    && v.lanes <= MAX_LANES == |v.feedback|
    && ChartAccepted(v.lanes, chart)
    && |v.records| <= v.maxEvents
    && InOrder(TapsOf(v.records), v.lanes, v.lastInput)
    && v.records == Replay(chart, TapsOf(v.records))
    && v.notes == Remaining(chart, TapsOf(v.records))
  }

  /** Logged taps are staged, in range, in time order and not after the last input. */
  predicate InOrder(taps: seq<Tap>, lanes: nat, last: int) {
    && StagedTaps(taps) && Nondecreasing(taps) && InLanes(taps, lanes)
    && (taps != [] ==> taps[|taps| - 1].time <= last)
  }

  lemma InOrderExtends(taps: seq<Tap>, lanes: nat, last: int, tap: Tap)
    requires InOrder(taps, lanes, last) && last <= tap.time && tap.lane < lanes && InputStage(tap.time) != NoStage
    ensures InOrder(taps + [tap], lanes, tap.time)
  {
    NondecreasingSnoc(taps, tap);
  }

  lemma InitialIsSound(lanes: nat, maxEvents: nat, chart: seq<Note>)
    requires lanes <= MAX_LANES && ChartAccepted(lanes, chart)
    ensures Sound(Initial(lanes, maxEvents, chart), chart)
  {
    assert TapsOf([]) == [];
  }

  lemma JudgedKeepsSound(v: View, chart: seq<Note>, tap: Tap)
    requires Sound(v, chart) && v.reason.None? && tap.lane < v.lanes && v.lastInput <= tap.time
    requires InputStage(tap.time) != NoStage && |v.records| < v.maxEvents
    ensures Sound(Step(v, tap), chart)
  {
    var taps := TapsOf(v.records);
    var w := Step(v, tap);
    assert TapsOf(w.records) == taps + [tap];
    ReplayExtends(chart, taps, tap, 0);
    InOrderExtends(taps, v.lanes, v.lastInput, tap);
  }

  /** The engine's log is always the naive replay of its own taps, and its flags
      are that replay's consumption, whatever input comes. */
  lemma StepKeepsSound(v: View, chart: seq<Note>, tap: Tap)
    requires Sound(v, chart)
    ensures Sound(Step(v, tap), chart)
  {
    if tap.lane < v.lanes && v.reason.None? && v.lastInput <= tap.time &&
       InputStage(tap.time) != NoStage && |v.records| < v.maxEvents {
      JudgedKeepsSound(v, chart, tap);
    } else {
      assert Step(v, tap).records == v.records && Step(v, tap).notes == v.notes;
    }
  }

  function Run(v: View, taps: seq<Tap>): (w: View)
    requires v.lanes <= MAX_LANES == |v.feedback|
    ensures w.lanes == v.lanes && w.maxEvents == v.maxEvents && |w.feedback| == MAX_LANES
  {
    if taps == [] then v else Step(Run(v, taps[..|taps| - 1]), taps[|taps| - 1])
  }

  lemma {:induction false} RunIsSound(v: View, chart: seq<Note>, taps: seq<Tap>)
    requires Sound(v, chart)
    ensures Sound(Run(v, taps), chart)
  {
    if taps != [] {
      RunIsSound(v, chart, taps[..|taps| - 1]);
      StepKeepsSound(Run(v, taps[..|taps| - 1]), chart, taps[|taps| - 1]);
    }
  }

  // ----- no input is silently dropped ---------------------------------------

  /** The taps a run has to log: those inside its lanes and a judging window. */
  function Accountable(taps: seq<Tap>, lanes: nat): seq<Tap> {
    if taps == [] then []
    else
      var n := |taps| - 1;
      Accountable(taps[..n], lanes) +
      if taps[n].lane < lanes && InputStage(taps[n].time) != NoStage then [taps[n]] else []
  }

  predicate InLanes(taps: seq<Tap>, lanes: nat) {
    forall k :: 0 <= k < |taps| ==> taps[k].lane < lanes
  }

  /** A run is valid exactly when its clock never went back and its log did not
      fill; then its log holds every accountable tap, in order. */
  lemma {:induction false} ValidRunLogsEverything(lanes: nat, maxEvents: nat, chart: seq<Note>, taps: seq<Tap>)
    requires lanes <= MAX_LANES && InLanes(taps, lanes)
    ensures var v := Run(Initial(lanes, maxEvents, chart), taps);
            && (v.reason.None? <==> Nondecreasing(taps) && |Accountable(taps, lanes)| <= maxEvents)
            && (v.reason.None? ==> TapsOf(v.records) == Accountable(taps, lanes))
            && (v.reason.None? ==> v.lastInput == if taps == [] then INT64_MIN else taps[|taps| - 1].time)
  {
    if taps == [] {
      assert TapsOf([]) == [];
    } else {
      var n := |taps| - 1;
      ValidRunLogsEverything(lanes, maxEvents, chart, taps[..n]);
      var v, tap := Run(Initial(lanes, maxEvents, chart), taps[..n]), taps[n];
      assert taps == taps[..n] + [tap];
      NondecreasingSnoc(taps[..n], tap);
      if v.reason.None? {
        assert |v.records| == |TapsOf(v.records)|;
        if v.lastInput <= tap.time && InputStage(tap.time) != NoStage && |v.records| < maxEvents {
          assert TapsOf(v.records + [Judge(v.notes, tap)]) == TapsOf(v.records) + [tap];
        }
      }
    }
  }

  lemma NondecreasingSnoc(taps: seq<Tap>, tap: Tap)
    ensures Nondecreasing(taps + [tap]) <==>
            Nondecreasing(taps) && (taps != [] ==> taps[|taps| - 1].time <= tap.time)
  {
    var more := taps + [tap];
    if Nondecreasing(more) {
      forall j, k | 0 <= j < k < |taps|
        ensures taps[j].time <= taps[k].time
      {
        assert more[j].time <= more[k].time;
      }
      assert taps != [] ==> more[|taps| - 1].time <= more[|taps|].time;
    }
  }

  // ----- theorems about whole runs ------------------------------------------

  /** In any run the hits on a lane are as many as any one-to-one assignment of
      that lane's recorded taps to its notes could achieve, and one achieves it. */
  lemma RunMatchesOptimally(v: View, chart: seq<Note>, lane: nat)
    requires Sound(v, chart)
    ensures forall m :: Matching(m, chart, TapsOf(v.records), 0, lane) ==> |m| <= HitCount(v.records, lane)
    ensures exists m :: Matching(m, chart, TapsOf(v.records), 0, lane) && |m| == HitCount(v.records, lane)
  {
    var taps := TapsOf(v.records);
    forall m | Matching(m, chart, taps, 0, lane)
      ensures |m| <= HitCount(v.records, lane)
    {
      GreedyIsMaximal(m, chart, taps, 0, lane);
    }
    var best := GreedyIsMatching(chart, taps, 0, lane);
  }

  lemma RecordsHaveSmallDelays(v: View, chart: seq<Note>)
    requires Sound(v, chart)
    ensures SmallDelays(v.records)
  {
    var taps := TapsOf(v.records);
    forall k | 0 <= k < |v.records|
      ensures Abs(v.records[k].delay) <= GOOD_WINDOW
    {
      ReplayEchoesTaps(chart, taps, 0, k);
      if IsHit(v.records[k].kind) {
        var i := HitTakesNote(chart, taps, 0, k);
      }
    }
  }

  lemma NoteCountSame(a: seq<Note>, b: seq<Note>, stage: Stage)
    requires SameChart(a, b)
    ensures NoteCount(a, stage) == NoteCount(b, stage)
    decreases |a|
  {
    if a != [] {
      var n := |a| - 1;
      assert SameChart(a[..n], b[..n]);
      NoteCountSame(a[..n], b[..n], stage);
      assert a[n].(consumed := true).stage == b[n].(consumed := true).stage;
    }
  }

  /** Consumption does not change what a summary counts. */
  lemma SameTally(v: View, chart: seq<Note>, stage: Stage)
    requires Sound(v, chart)
    ensures Tally(v.notes, v.records, stage) == Tally(chart, Replay(chart, TapsOf(v.records)), stage)
  {
    RemainingSameChart(chart, TapsOf(v.records), 0);
    NoteCountSame(chart, v.notes, stage);
  }

  /** The summary of any state of any run conserves notes, scores by the published
      formula and stays inside signed 64 bits. */
  lemma ResultsAreConserved(v: View, chart: seq<Note>, stage: Stage)
    requires Sound(v, chart) && CapacityValid(v.maxEvents)
    ensures var s := Tally(v.notes, v.records, stage);
            && s.missed == Unconsumed(v.notes, stage)
            && s.perfect + s.good + s.missed == s.notes == NoteCount(chart, stage)
            && s.rawScore == 2 * s.perfect + s.good - 5 * s.empty
            && INT64_MIN <= s.rawScore <= INT64_MAX && s.hitDelaySum <= s.delaySum <= INT64_MAX
  {
    MissedNeverUnderflows(v.lanes, chart, TapsOf(v.records), stage);
    SameTally(v, chart, stage);
    RecordsHaveSmallDelays(v, chart);
    NoOverflow(v.notes, v.records, stage, v.maxEvents, |v.records|);
    assert v.records[..|v.records|] == v.records;
  }

  /** No note is credited twice in a log. */
  lemma HitsNameDistinctNotes(v: View, chart: seq<Note>, i: nat, j: nat)
    requires Sound(v, chart) && i < j < |v.records| && IsHit(v.records[i].kind) && IsHit(v.records[j].kind)
    ensures v.records[i].noteId != v.records[j].noteId
  {
    HitsAreDistinct(chart, TapsOf(v.records), 0, i, j);
  }

  // ----- lane index tables --------------------------------------------------

  function LaneIndex(notes: seq<Note>, lane: nat): seq<nat> {
    if notes == [] then []
    else
      var n := |notes| - 1;
      LaneIndex(notes[..n], lane) + if notes[n].lane == lane then [n] else []
  }

  /** The table lists the lane's notes, all of them, in chart order. */
  predicate Indexes(notes: seq<Note>, lane: nat, table: seq<nat>) {
    && (forall p :: 0 <= p < |table| ==> table[p] < |notes| && notes[table[p]].lane == lane)
    && (forall p, q :: 0 <= p < q < |table| ==> table[p] < table[q])
    && (forall i :: 0 <= i < |notes| && notes[i].lane == lane ==> i in table)
  }

  lemma {:induction false} LaneIndexIndexes(notes: seq<Note>, lane: nat)
    ensures Indexes(notes, lane, LaneIndex(notes, lane))
  {
    if notes != [] {
      var n := |notes| - 1;
      LaneIndexIndexes(notes[..n], lane);
      var before, table := LaneIndex(notes[..n], lane), LaneIndex(notes, lane);
      forall i | 0 <= i < |notes| && notes[i].lane == lane
        ensures i in table
      {
        if i < n { assert notes[..n][i].lane == lane; assert i in before; } else { assert table[|before|] == n; }
      }
      forall p | 0 <= p < |before|
        ensures notes[table[p]].lane == lane
      {
        assert notes[..n][before[p]].lane == lane;
      }
    }
  }

  lemma SameChartIndexes(a: seq<Note>, b: seq<Note>, lane: nat, table: seq<nat>)
    requires SameChart(a, b) && Indexes(a, lane, table)
    ensures Indexes(b, lane, table)
  {
    forall i | 0 <= i < |a|
      ensures a[i].lane == b[i].lane
    {
      assert a[i].(consumed := true).lane == b[i].(consumed := true).lane;
    }
  }

  lemma SameChartOrder(a: seq<Note>, b: seq<Note>)
    requires SameChart(a, b) && Sorted(a) && Staged(a)
    ensures Sorted(b) && Staged(b)
  {
    forall i | 0 <= i < |a|
      ensures a[i].target == b[i].target && a[i].stage == b[i].stage
    {
      var x, y := a[i].(consumed := true), b[i].(consumed := true);
      assert x == y;
    }
  }

  /** Everything before position c of the lane is spent for taps at or after time. */
  predicate SpentBefore(notes: seq<Note>, table: seq<nat>, c: nat, time: int) {
    && c <= |table|
    && (forall p :: 0 <= p < c ==> table[p] < |notes|)
    && (forall p :: 0 <= p < c ==> notes[table[p]].consumed || notes[table[p]].target < time - GOOD_WINDOW)
  }

  /** The note under an advanced cursor is the naive rule's choice, or there is none. */
  lemma CursorFindsFirst(notes: seq<Note>, table: seq<nat>, c: nat, tap: Tap)
    requires Sorted(notes) && Staged(notes) && Indexes(notes, tap.lane, table)
    requires InputStage(tap.time) != NoStage
    requires SpentBefore(notes, table, c, tap.time)
    requires c < |table| ==> !notes[table[c]].consumed && notes[table[c]].target >= tap.time - GOOD_WINDOW
    ensures FirstEligible(notes, tap.time, tap.lane) ==
            if c < |table| && notes[table[c]].stage == InputStage(tap.time) && notes[table[c]].target <= tap.time + GOOD_WINDOW
            then Some(table[c]) else None
  {
    var found := FirstEligible(notes, tap.time, tap.lane);
    if found.Some? {
      var p :| 0 <= p < |table| && table[p] == found.value;
      assert p >= c;
      assert table[c] <= table[p];
      assert notes[table[c]].target <= notes[table[p]].target;
      StageNeverRejects(tap.time, notes[table[c]].target, notes[table[c]].stage);
      assert Eligible(notes[table[c]], tap.time, tap.lane);
    }
  }

  // ----- construction -------------------------------------------------------

  function LaneTable(notes: seq<Note>): seq<seq<nat>> {
    seq(MAX_LANES, lane requires 0 <= lane < MAX_LANES => LaneIndex(notes, lane))
  }

  /** The last target seen on each lane of a prefix, or the 64-bit minimum. */
  function LastTarget(notes: seq<Note>, lane: nat): int {
    if notes == [] then INT64_MIN
    else if notes[|notes| - 1].lane == lane then notes[|notes| - 1].target
    else LastTarget(notes[..|notes| - 1], lane)
  }

  lemma {:induction false} LastTargetBounds(notes: seq<Note>, lane: nat)
    requires Sorted(notes) && Staged(notes)
    ensures LastTarget(notes, lane) == INT64_MIN || exists i :: 0 <= i < |notes| && notes[i].lane == lane && notes[i].target == LastTarget(notes, lane)
    ensures forall i :: 0 <= i < |notes| && notes[i].lane == lane ==> INT64_MIN < notes[i].target <= LastTarget(notes, lane)
  {
    if notes != [] && notes[|notes| - 1].lane != lane {
      var n := |notes| - 1;
      LastTargetBounds(notes[..n], lane);
    }
  }

  function IdsOf(notes: seq<Note>): set<Id> {
    set i | 0 <= i < |notes| :: notes[i].id
  }

  /** Checking one more note against the running maxima decides the whole chart. */
  lemma AcceptStep(lanes: nat, notes: seq<Note>, note: Note, ids: set<Id>)
    requires ChartAccepted(lanes, notes)
    requires ids == IdsOf(notes)
    ensures ChartAccepted(lanes, notes + [note]) <==>
              && note.lane < lanes && !note.consumed && TargetInStage(note.target, note.stage)
              && (notes != [] ==> note.target >= notes[|notes| - 1].target)
              && note.id != NO_NOTE && note.id !in ids
              && (LastTarget(notes, note.lane) == INT64_MIN || note.target - LastTarget(notes, note.lane) >= LANE_LOCK)
  {
    var more := notes + [note];
    LastTargetBounds(notes, note.lane);
    if ChartAccepted(lanes, more) {
      assert more[|notes|] == note;
      forall i | 0 <= i < |notes|
        ensures more[i] == notes[i] && notes[i].id != note.id && notes[i].target <= note.target
        ensures notes[i].lane == note.lane ==> note.target - notes[i].target >= LANE_LOCK
      {
        assert more[i].id != more[|notes|].id;
      }
    }
  }
}
