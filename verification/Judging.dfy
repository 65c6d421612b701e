/** The published judgement rule in its naive form: a tap is matched to the
    earliest unconsumed note of its lane and stage within the GOOD window, found
    by scanning the whole chart.  The engine and the replay tool are both proved
    to compute this rule; what the rule guarantees is proved here and in GreedyMatching. */
module Judging {
  import opened Options
  import opened Core

  // ----- chart conditions -------------------------------------------------

  predicate Sorted(notes: seq<Note>) {
    forall i, j :: 0 <= i < j < |notes| ==> notes[i].target <= notes[j].target
  }

  predicate Staged(notes: seq<Note>) {
    forall i :: 0 <= i < |notes| ==> TargetInStage(notes[i].target, notes[i].stage)
  }

  predicate LaneSpaced(notes: seq<Note>) {
    forall i, j :: 0 <= i < j < |notes| && notes[i].lane == notes[j].lane ==>
      notes[j].target - notes[i].target >= LANE_LOCK
  }

  predicate DistinctIds(notes: seq<Note>) {
    forall i, j :: 0 <= i < j < |notes| ==> notes[i].id != notes[j].id
  }

  predicate ChartAccepted(lanes: nat, notes: seq<Note>) {
    && (forall i :: 0 <= i < |notes| ==> notes[i].lane < lanes && !notes[i].consumed && notes[i].id != NO_NOTE)
    && Staged(notes)
    && Sorted(notes)
    && DistinctIds(notes)
    && LaneSpaced(notes)
  }

  predicate StagedTaps(taps: seq<Tap>) {
    forall k :: 0 <= k < |taps| ==> InputStage(taps[k].time) != NoStage
  }

  predicate Nondecreasing(taps: seq<Tap>) {
    forall j, k :: 0 <= j < k < |taps| ==> taps[j].time <= taps[k].time
  }

  // ----- the rule ---------------------------------------------------------

  predicate Eligible(note: Note, time: TimeNs, lane: nat) {
    && note.lane == lane
    && note.stage == InputStage(time)
    && !note.consumed
    && Abs(time - note.target) <= GOOD_WINDOW
  }

  function FirstEligible(notes: seq<Note>, time: TimeNs, lane: nat, start: nat := 0): (r: Option<nat>)
    requires start <= |notes|
    ensures r.None? ==> forall j :: start <= j < |notes| ==> !Eligible(notes[j], time, lane)
    ensures r.Some? ==> start <= r.value < |notes| && Eligible(notes[r.value], time, lane)
    ensures r.Some? ==> forall j :: start <= j < r.value ==> !Eligible(notes[j], time, lane)
    decreases |notes| - start
  {
    if start == |notes| then None
    else if Eligible(notes[start], time, lane) then Some(start)
    else FirstEligible(notes, time, lane, start + 1)
  }

  function Consume(notes: seq<Note>, i: nat): seq<Note>
    requires i < |notes|
  {
    notes[i := notes[i].(consumed := true)]
  }

  function Judge(notes: seq<Note>, tap: Tap): Feedback {
    match FirstEligible(notes, tap.time, tap.lane)
    case None => Feedback(tap.time, 0, NO_NOTE, tap.lane, InputStage(tap.time), Empty)
    case Some(i) =>
      var delay := tap.time - notes[i].target;
      Feedback(tap.time, delay, notes[i].id, tap.lane, InputStage(tap.time),
               if Abs(delay) <= PERFECT_WINDOW then Perfect else Good)
  }

  function NotesAfter(notes: seq<Note>, tap: Tap): seq<Note> {
    match FirstEligible(notes, tap.time, tap.lane)
    case None => notes
    case Some(i) => Consume(notes, i)
  }

  /** Judgements of taps[k..] in order, starting from the given notes. */
  function Replay(notes: seq<Note>, taps: seq<Tap>, k: nat := 0): (r: seq<Feedback>)
    requires k <= |taps|
    ensures |r| == |taps| - k
    decreases |taps| - k
  {
    if k == |taps| then [] else [Judge(notes, taps[k])] + Replay(NotesAfter(notes, taps[k]), taps, k + 1)
  }

  /** The notes once taps[k..] have been judged. */
  function Remaining(notes: seq<Note>, taps: seq<Tap>, k: nat := 0): (r: seq<Note>)
    requires k <= |taps|
    ensures |r| == |notes|
    decreases |taps| - k
  {
    if k == |taps| then notes else Remaining(NotesAfter(notes, taps[k]), taps, k + 1)
  }

  /** Judging one more tap appends one judgement and leaves the others alone. */
  lemma {:induction false} ReplayExtends(notes: seq<Note>, taps: seq<Tap>, tap: Tap, k: nat)
    requires k <= |taps|
    ensures Replay(notes, taps + [tap], k) == Replay(notes, taps, k) + [Judge(Remaining(notes, taps, k), tap)]
    ensures Remaining(notes, taps + [tap], k) == NotesAfter(Remaining(notes, taps, k), tap)
    decreases |taps| - k
  {
    var more := taps + [tap];
    if k == |taps| {
      assert more[k] == tap;
      assert Replay(NotesAfter(notes, tap), more, k + 1) == [];
    } else {
      assert more[k] == taps[k];
      ReplayExtends(NotesAfter(notes, taps[k]), taps, tap, k + 1);
    }
  }

  /** What a tap is judged depends on the taps before it only. */
  lemma {:induction false} ReplayPrefix(notes: seq<Note>, taps: seq<Tap>, j: nat)
    requires j < |taps|
    ensures Replay(notes, taps)[j] == Judge(Remaining(notes, taps[..j]), taps[j])
    decreases |taps|
  {
    var n := |taps| - 1;
    ReplayExtends(notes, taps[..n], taps[n], 0);
    assert taps == taps[..n] + [taps[n]];
    if j < n {
      ReplayPrefix(notes, taps[..n], j);
      assert taps[..n][..j] == taps[..j];
    }
  }

  // ----- what the rule keeps ----------------------------------------------

  /** Only consumption flags ever change. */
  predicate SameChart(a: seq<Note>, b: seq<Note>) {
    && |a| == |b|
    && forall i :: 0 <= i < |a| ==>
         a[i].(consumed := true) == b[i].(consumed := true) && (a[i].consumed ==> b[i].consumed)
  }

  lemma {:induction false} RemainingSameChart(notes: seq<Note>, taps: seq<Tap>, k: nat)
    requires k <= |taps|
    ensures SameChart(notes, Remaining(notes, taps, k))
    decreases |taps| - k
  {
    if k < |taps| {
      RemainingSameChart(NotesAfter(notes, taps[k]), taps, k + 1);
    }
  }

  lemma {:induction false} ReplayEchoesTaps(notes: seq<Note>, taps: seq<Tap>, k: nat, j: nat)
    requires k <= j < |taps|
    ensures var fb := Replay(notes, taps, k)[j - k];
            fb.event == taps[j].time && fb.lane == taps[j].lane && fb.stage == InputStage(taps[j].time) &&
            (IsHit(fb.kind) || (fb.kind == Empty && fb.noteId == NO_NOTE && fb.delay == 0))
    decreases |taps| - k
  {
    if k < j {
      ReplayEchoesTaps(NotesAfter(notes, taps[k]), taps, k + 1, j);
    }
  }

  // ----- earliest equals nearest ------------------------------------------

  /** Because the lane lock is twice the GOOD window, a tap sees at most two notes
      of its lane, and two only from their exact midpoint. */
  lemma WindowHoldsTwo(notes: seq<Note>, time: TimeNs, i: nat, j: nat)
    requires LaneSpaced(notes) && i < j < |notes| && notes[i].lane == notes[j].lane
    requires Abs(time - notes[i].target) <= GOOD_WINDOW && Abs(time - notes[j].target) <= GOOD_WINDOW
    ensures time - notes[i].target == GOOD_WINDOW && notes[j].target - time == GOOD_WINDOW
    ensures forall m :: 0 <= m < |notes| && m != i && m != j && notes[m].lane == notes[i].lane ==>
              Abs(time - notes[m].target) > GOOD_WINDOW
  {
    forall m | 0 <= m < |notes| && m != i && m != j && notes[m].lane == notes[i].lane
      ensures Abs(time - notes[m].target) > GOOD_WINDOW
    {
      if m < i {
        assert notes[i].target - notes[m].target >= LANE_LOCK;
      } else {
        assert notes[m].target - notes[i].target >= LANE_LOCK;
      }
    }
  }

  /** The note the rule takes minimises |delay| among all eligible notes, with
      ties going to the earlier target. */
  lemma EarliestIsNearest(notes: seq<Note>, tap: Tap, j: nat)
    requires LaneSpaced(notes) && j < |notes| && Eligible(notes[j], tap.time, tap.lane)
    ensures FirstEligible(notes, tap.time, tap.lane).Some?
    ensures var i := FirstEligible(notes, tap.time, tap.lane).value;
            Judge(notes, tap).noteId == notes[i].id &&
            Abs(Judge(notes, tap).delay) <= Abs(tap.time - notes[j].target) &&
            (Abs(Judge(notes, tap).delay) == Abs(tap.time - notes[j].target) ==> notes[i].target <= notes[j].target)
  {
    var i := FirstEligible(notes, tap.time, tap.lane).value;
    if i < j {
      WindowHoldsTwo(notes, tap.time, i, j);
    }
  }

  // ----- what a judgement says --------------------------------------------

  /** A note of the tap's lane, not yet consumed, within the given distance. */
  predicate InReach(note: Note, tap: Tap, window: int) {
    note.lane == tap.lane && !note.consumed && Abs(tap.time - note.target) <= window
  }

  /** The feedback is a hit on note i, and no note in reach is nearer, or as near and
      earlier. */
  predicate HitsNearest(notes: seq<Note>, tap: Tap, fb: Feedback, i: nat)
    requires i < |notes|
  {
    && InReach(notes[i], tap, GOOD_WINDOW) && fb.noteId == notes[i].id && fb.delay == tap.time - notes[i].target
    && forall j :: 0 <= j < |notes| && InReach(notes[j], tap, GOOD_WINDOW) ==>
         Abs(fb.delay) < Abs(tap.time - notes[j].target) || (Abs(fb.delay) == Abs(tap.time - notes[j].target) && i <= j)
  }

  lemma ReachIsEligible(notes: seq<Note>, tap: Tap)
    requires Staged(notes)
    ensures forall i :: 0 <= i < |notes| ==> (Eligible(notes[i], tap.time, tap.lane) <==> InReach(notes[i], tap, GOOD_WINDOW))
  {
    forall i | 0 <= i < |notes| && InReach(notes[i], tap, GOOD_WINDOW)
      ensures notes[i].stage == InputStage(tap.time)
    {
      StageNeverRejects(tap.time, notes[i].target, notes[i].stage);
    }
  }

  lemma FirstIsNearest(notes: seq<Note>, tap: Tap, i: nat)
    requires Sorted(notes) && Staged(notes) && LaneSpaced(notes) && FirstEligible(notes, tap.time, tap.lane) == Some(i)
    ensures HitsNearest(notes, tap, Judge(notes, tap), i)
  {
    ReachIsEligible(notes, tap);
    forall j | 0 <= j < |notes| && InReach(notes[j], tap, GOOD_WINDOW)
      ensures i <= j && Abs(tap.time - notes[i].target) <= Abs(tap.time - notes[j].target)
    {
      EarliestIsNearest(notes, tap, j);
    }
  }

  /** What a judged tap gets, said of the notes alone: Empty exactly when no unconsumed
      note of its lane is within 20 ms; otherwise a hit on the nearest of them, Perfect
      exactly when one is within 8 ms. */
  lemma JudgedExactly(notes: seq<Note>, tap: Tap)
    requires Sorted(notes) && Staged(notes) && LaneSpaced(notes)
    ensures var fb := Judge(notes, tap);
            && fb.event == tap.time && fb.lane == tap.lane && fb.stage == InputStage(tap.time)
            && (fb.kind == Perfect <==> exists i :: 0 <= i < |notes| && InReach(notes[i], tap, PERFECT_WINDOW))
            && (fb.kind == Empty <==> forall i :: 0 <= i < |notes| ==> !InReach(notes[i], tap, GOOD_WINDOW))
            && (fb.kind == Perfect || fb.kind == Good || fb.kind == Empty)
            && (fb.kind == Empty ==> fb.delay == 0 && fb.noteId == NO_NOTE)
            && (fb.kind != Empty ==> exists i :: 0 <= i < |notes| && HitsNearest(notes, tap, fb, i))
  {
    var found, fb := FirstEligible(notes, tap.time, tap.lane), Judge(notes, tap);
    ReachIsEligible(notes, tap);
    if found.Some? {
      FirstIsNearest(notes, tap, found.value);
      assert HitsNearest(notes, tap, fb, found.value);
      assert fb.kind == Perfect ==> InReach(notes[found.value], tap, PERFECT_WINDOW);
      assert forall i :: 0 <= i < |notes| && InReach(notes[i], tap, PERFECT_WINDOW) ==> InReach(notes[i], tap, GOOD_WINDOW);
    } else {
      assert forall i :: 0 <= i < |notes| && InReach(notes[i], tap, PERFECT_WINDOW) ==> InReach(notes[i], tap, GOOD_WINDOW);
    }
  }

  /** And it consumes exactly the note it names. */
  lemma ConsumesExactly(notes: seq<Note>, tap: Tap)
    requires Sorted(notes) && Staged(notes) && LaneSpaced(notes)
    ensures var after, fb := NotesAfter(notes, tap), Judge(notes, tap);
            && |after| == |notes|
            && (fb.kind == Empty ==> after == notes)
            && (fb.kind != Empty ==>
                  (exists i :: 0 <= i < |notes| && HitsNearest(notes, tap, fb, i) && after == notes[i := notes[i].(consumed := true)]))
  {
    JudgedExactly(notes, tap);
    var found := FirstEligible(notes, tap.time, tap.lane);
    if found.Some? { FirstIsNearest(notes, tap, found.value); }
  }
}
