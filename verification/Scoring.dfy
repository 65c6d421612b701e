/** Score summaries over a list of judgements, conservation of notes, and the
    size and range bounds the engine's constructor is there to guarantee. */
module Scoring {
  import opened Options
  import opened Core
  import opened Judging

  // ----- counting ---------------------------------------------------------

  function NoteCount(notes: seq<Note>, stage: Stage): nat {
    if notes == [] then 0
    else
      var n := |notes| - 1;
      NoteCount(notes[..n], stage) + if notes[n].stage == stage then 1 else 0
  }

  function Unconsumed(notes: seq<Note>, stage: Stage): nat {
    if notes == [] then 0
    else
      var n := |notes| - 1;
      Unconsumed(notes[..n], stage) + if notes[n].stage == stage && !notes[n].consumed then 1 else 0
  }

  function KindCount(fbs: seq<Feedback>, stage: Stage, kind: Judgment): nat {
    if fbs == [] then 0
    else
      var n := |fbs| - 1;
      KindCount(fbs[..n], stage, kind) + if fbs[n].stage == stage && fbs[n].kind == kind then 1 else 0
  }

  function HitDelay(fbs: seq<Feedback>, stage: Stage): nat {
    if fbs == [] then 0
    else
      var n := |fbs| - 1;
      HitDelay(fbs[..n], stage) + if fbs[n].stage == stage && IsHit(fbs[n].kind) then Abs(fbs[n].delay) else 0
  }

  /** What a summary means: counts of the stage's notes and judgements, the
      published score formula and the two delay sums. */
  function Tally(notes: seq<Note>, fbs: seq<Feedback>, stage: Stage): ScoreSummary {
    var perfect, good, empty := KindCount(fbs, stage, Perfect), KindCount(fbs, stage, Good), KindCount(fbs, stage, Empty);
    ScoreSummary(NoteCount(notes, stage), perfect, good, empty, NoteCount(notes, stage) - perfect - good,
                 2 * perfect + good - 5 * empty, HitDelay(fbs, stage) + empty * EMPTY_PENALTY, HitDelay(fbs, stage))
  }

  // ----- what a summary means ----------------------------------------------

  /** Points and cost of one judgement, as published. */
  function Points(kind: Judgment): int {
    match kind
    case Perfect => 2
    case Good => 1
    case Empty => -5
    case _ => 0
  }

  function CostOf(fb: Feedback): nat {
    match fb.kind
    case Perfect => Abs(fb.delay)
    case Good => Abs(fb.delay)
    case Empty => 100 * MS
    case _ => 0
  }

  function TotalPoints(fbs: seq<Feedback>, stage: Stage): int {
    if fbs == [] then 0
    else
      var n := |fbs| - 1;
      TotalPoints(fbs[..n], stage) + if fbs[n].stage == stage then Points(fbs[n].kind) else 0
  }

  function TotalCost(fbs: seq<Feedback>, stage: Stage): nat {
    if fbs == [] then 0
    else
      var n := |fbs| - 1;
      TotalCost(fbs[..n], stage) + if fbs[n].stage == stage then CostOf(fbs[n]) else 0
  }

  predicate IsNamed(fb: Feedback, stage: Stage, kind: Judgment) {
    fb.stage == stage && fb.kind == kind
  }

  function Named(fbs: seq<Feedback>, stage: Stage, kind: Judgment): set<nat> {
    set k: nat | k < |fbs| && IsNamed(fbs[k], stage, kind)
  }

  function OfStage(notes: seq<Note>, stage: Stage): set<nat> {
    set i: nat | i < |notes| && notes[i].stage == stage
  }

  lemma NamedGrows(fbs: seq<Feedback>, stage: Stage, kind: Judgment)
    requires fbs != []
    ensures var n := |fbs| - 1;
            Named(fbs, stage, kind) == Named(fbs[..n], stage, kind) + if IsNamed(fbs[n], stage, kind) then {n} else {}
  {
    var n := |fbs| - 1;
    assert forall k: nat :: k < n ==> fbs[..n][k] == fbs[k];
  }

  lemma {:induction false} CountsKind(fbs: seq<Feedback>, stage: Stage, kind: Judgment)
    ensures KindCount(fbs, stage, kind) == |Named(fbs, stage, kind)|
  {
    if fbs != [] {
      CountsKind(fbs[..|fbs| - 1], stage, kind);
      NamedGrows(fbs, stage, kind);
    }
  }

  lemma {:induction false} CountsNotes(notes: seq<Note>, stage: Stage)
    ensures NoteCount(notes, stage) == |OfStage(notes, stage)|
  {
    if notes != [] {
      var n := |notes| - 1;
      CountsNotes(notes[..n], stage);
      assert OfStage(notes, stage) == OfStage(notes[..n], stage) + if notes[n].stage == stage then {n} else {};
    }
  }

  lemma {:induction false} SumsJudgements(fbs: seq<Feedback>, stage: Stage)
    ensures TotalPoints(fbs, stage) ==
            2 * KindCount(fbs, stage, Perfect) + KindCount(fbs, stage, Good) - 5 * KindCount(fbs, stage, Empty)
    ensures TotalCost(fbs, stage) == HitDelay(fbs, stage) + KindCount(fbs, stage, Empty) * EMPTY_PENALTY
  {
    if fbs != [] { SumsJudgements(fbs[..|fbs| - 1], stage); }
  }

  /** A summary, said of the notes and judgements one by one: how many of each there are
      in the stage, the points of each added up, and its delay or 100 ms added up. */
  lemma TallyIsExact(notes: seq<Note>, fbs: seq<Feedback>, stage: Stage)
    ensures var s := Tally(notes, fbs, stage);
            && s.notes == |OfStage(notes, stage)|
            && s.perfect == |Named(fbs, stage, Perfect)| && s.good == |Named(fbs, stage, Good)|
            && s.empty == |Named(fbs, stage, Empty)| && s.missed == s.notes - s.perfect - s.good
            && s.rawScore == TotalPoints(fbs, stage) && s.delaySum == TotalCost(fbs, stage)
            && s.hitDelaySum == s.delaySum - s.empty * (100 * MS)
  {
    CountsNotes(notes, stage);
    CountsKind(fbs, stage, Perfect);
    CountsKind(fbs, stage, Good);
    CountsKind(fbs, stage, Empty);
    SumsJudgements(fbs, stage);
  }

  // ----- conservation -----------------------------------------------------

  lemma {:induction false} ConsumeCounts(notes: seq<Note>, i: nat, stage: Stage)
    requires i < |notes| && !notes[i].consumed
    ensures Unconsumed(Consume(notes, i), stage) == Unconsumed(notes, stage) - if notes[i].stage == stage then 1 else 0
  {
    var n := |notes| - 1;
    if i < n {
      assert Consume(notes, i)[..n] == Consume(notes[..n], i);
      ConsumeCounts(notes[..n], i, stage);
    } else {
      assert Consume(notes, i)[..n] == notes[..n];
    }
  }

  lemma {:induction false} FreshCounts(notes: seq<Note>, stage: Stage)
    requires forall i :: 0 <= i < |notes| ==> !notes[i].consumed
    ensures Unconsumed(notes, stage) == NoteCount(notes, stage)
  {
    if notes != [] {
      FreshCounts(notes[..|notes| - 1], stage);
    }
  }

  /** Every hit takes exactly one unconsumed note of its own stage. */
  lemma {:induction false} HitsConsume(notes: seq<Note>, taps: seq<Tap>, stage: Stage)
    ensures var fbs := Replay(notes, taps);
            KindCount(fbs, stage, Perfect) + KindCount(fbs, stage, Good) + Unconsumed(Remaining(notes, taps), stage)
              == Unconsumed(notes, stage)
  {
    if taps != [] {
      var n := |taps| - 1;
      var now := Remaining(notes, taps[..n]);
      HitsConsume(notes, taps[..n], stage);
      assert taps == taps[..n] + [taps[n]];
      ReplayExtends(notes, taps[..n], taps[n], 0);
      assert Replay(notes, taps)[..n] == Replay(notes, taps[..n]);
      var found := FirstEligible(now, taps[n].time, taps[n].lane);
      if found.Some? {
        ConsumeCounts(now, found.value, stage);
      }
    }
  }

  /** Conservation: missed notes are exactly the notes never consumed, so the
      count never underflows and every note is perfect, good or missed. */
  lemma MissedNeverUnderflows(lanes: nat, chart: seq<Note>, taps: seq<Tap>, stage: Stage)
    requires ChartAccepted(lanes, chart)
    ensures var s := Tally(chart, Replay(chart, taps), stage);
            s.missed == Unconsumed(Remaining(chart, taps), stage) && s.perfect + s.good + s.missed == s.notes
  {
    FreshCounts(chart, stage);
    HitsConsume(chart, taps, stage);
  }

  /** A hit names a note that was available before and is consumed after. */
  lemma {:induction false} HitTakesNote(notes: seq<Note>, taps: seq<Tap>, k: nat, j: nat) returns (i: nat)
    requires k <= j < |taps| && IsHit(Replay(notes, taps, k)[j - k].kind)
    ensures i < |notes| && !notes[i].consumed && Remaining(notes, taps, k)[i].consumed
    ensures var fb := Replay(notes, taps, k)[j - k];
            fb.noteId == notes[i].id && fb.delay == taps[j].time - notes[i].target &&
            Abs(fb.delay) <= GOOD_WINDOW && notes[i].lane == taps[j].lane && notes[i].stage == fb.stage
    decreases |taps| - k
  {
    var later := NotesAfter(notes, taps[k]);
    if k == j {
      i := FirstEligible(notes, taps[k].time, taps[k].lane).value;
      RemainingSameChart(later, taps, k + 1);
    } else {
      i := HitTakesNote(later, taps, k + 1, j);
    }
  }

  lemma ReplayTail(notes: seq<Note>, taps: seq<Tap>, k: nat, j: nat)
    requires k < j < |taps|
    ensures Replay(notes, taps, k)[j - k] == Replay(NotesAfter(notes, taps[k]), taps, k + 1)[j - (k + 1)]
  {
  }

  lemma IdsStayDistinct(notes: seq<Note>, tap: Tap)
    requires DistinctIds(notes)
    ensures DistinctIds(NotesAfter(notes, tap))
  {
  }

  /** A note still open after a hit is not the one hit. */
  lemma LaterHitDiffers(notes: seq<Note>, tap: Tap, other: nat)
    requires DistinctIds(notes) && IsHit(Judge(notes, tap).kind)
    requires other < |notes| && !NotesAfter(notes, tap)[other].consumed
    ensures Judge(notes, tap).noteId != NotesAfter(notes, tap)[other].id
  {
    var hit := FirstEligible(notes, tap.time, tap.lane).value;
    assert hit != other;
  }

  lemma ReplayHead(notes: seq<Note>, taps: seq<Tap>, k: nat)
    requires k < |taps|
    ensures Replay(notes, taps, k)[0] == Judge(notes, taps[k])
  {
  }

  lemma FirstHitDiffers(notes: seq<Note>, taps: seq<Tap>, k: nat, j: nat)
    requires DistinctIds(notes) && k < j < |taps| && IsHit(Judge(notes, taps[k]).kind)
    requires IsHit(Replay(NotesAfter(notes, taps[k]), taps, k + 1)[j - (k + 1)].kind)
    ensures Judge(notes, taps[k]).noteId != Replay(NotesAfter(notes, taps[k]), taps, k + 1)[j - (k + 1)].noteId
  {
    var other := HitTakesNote(NotesAfter(notes, taps[k]), taps, k + 1, j);
    LaterHitDiffers(notes, taps[k], other);
  }

  /** Two judgements of a list are hits on different notes, if they are hits at all. */
  predicate HitsDiffer(fbs: seq<Feedback>, x: nat, y: nat)
    requires x < |fbs| && y < |fbs|
  {
    IsHit(fbs[x].kind) && IsHit(fbs[y].kind) ==> fbs[x].noteId != fbs[y].noteId
  }

  lemma FirstDiffers(notes: seq<Note>, taps: seq<Tap>, k: nat, j: nat)
    requires DistinctIds(notes) && k < j < |taps|
    ensures HitsDiffer(Replay(notes, taps, k), 0, j - k)
  {
    ReplayHead(notes, taps, k);
    ReplayTail(notes, taps, k, j);
    if IsHit(Judge(notes, taps[k]).kind) && IsHit(Replay(notes, taps, k)[j - k].kind) { FirstHitDiffers(notes, taps, k, j); }
  }

  lemma {:induction false} LaterDiffer(notes: seq<Note>, taps: seq<Tap>, k: nat, i: nat, j: nat)
    requires DistinctIds(notes) && k <= i < j < |taps|
    ensures HitsDiffer(Replay(notes, taps, k), i - k, j - k)
    decreases |taps| - k
  {
    if k == i {
      FirstDiffers(notes, taps, k, j);
    } else {
      ReplayTail(notes, taps, k, i);
      ReplayTail(notes, taps, k, j);
      IdsStayDistinct(notes, taps[k]);
      LaterDiffer(NotesAfter(notes, taps[k]), taps, k + 1, i, j);
    }
  }

  /** No note is hit twice in a run. */
  lemma HitsAreDistinct(notes: seq<Note>, taps: seq<Tap>, k: nat, i: nat, j: nat)
    requires DistinctIds(notes) && k <= i < j < |taps|
    requires IsHit(Replay(notes, taps, k)[i - k].kind) && IsHit(Replay(notes, taps, k)[j - k].kind)
    ensures Replay(notes, taps, k)[i - k].noteId != Replay(notes, taps, k)[j - k].noteId
  {
    LaterDiffer(notes, taps, k, i, j);
  }

  // ----- range ------------------------------------------------------------

  predicate SmallDelays(fbs: seq<Feedback>) {
    forall k :: 0 <= k < |fbs| ==> Abs(fbs[k].delay) <= GOOD_WINDOW
  }

  lemma {:induction false} DelaySumBound(fbs: seq<Feedback>, stage: Stage)
    requires SmallDelays(fbs)
    ensures HitDelay(fbs, stage) <= GOOD_WINDOW * (KindCount(fbs, stage, Perfect) + KindCount(fbs, stage, Good))
  {
    if fbs != [] {
      var n := |fbs| - 1;
      DelaySumBound(fbs[..n], stage);
      assert Abs(fbs[n].delay) <= GOOD_WINDOW;
    }
  }

  lemma {:induction false} KindsAreDisjoint(fbs: seq<Feedback>, stage: Stage)
    ensures KindCount(fbs, stage, Perfect) + KindCount(fbs, stage, Good) + KindCount(fbs, stage, Empty) <= |fbs|
  {
    if fbs != [] {
      KindsAreDisjoint(fbs[..|fbs| - 1], stage);
    }
  }

  /** The accepted log capacity keeps the score and both delay sums, and each of
      their running values, within signed 64 bits. */
  lemma NoOverflow(notes: seq<Note>, fbs: seq<Feedback>, stage: Stage, maxEvents: nat, n: nat)
    requires maxEvents <= INT64_MAX / EMPTY_PENALTY && |fbs| <= maxEvents && SmallDelays(fbs) && n <= |fbs|
    ensures var s := Tally(notes, fbs[..n], stage);
            INT64_MIN <= s.rawScore <= INT64_MAX && s.hitDelaySum <= s.delaySum <= INT64_MAX
  {
    DelaySumBound(fbs[..n], stage);
    KindsAreDisjoint(fbs[..n], stage);
    SumsFit(KindCount(fbs[..n], stage, Perfect), KindCount(fbs[..n], stage, Good), KindCount(fbs[..n], stage, Empty),
            HitDelay(fbs[..n], stage), n);
  }

  lemma SumsFit(perfect: nat, good: nat, empty: nat, hitDelay: nat, n: nat)
    requires perfect + good + empty <= n <= INT64_MAX / EMPTY_PENALTY && hitDelay <= GOOD_WINDOW * (perfect + good)
    ensures INT64_MIN <= 2 * perfect + good - 5 * empty <= INT64_MAX
    ensures hitDelay <= hitDelay + empty * EMPTY_PENALTY <= INT64_MAX
  {
    assert hitDelay + empty * EMPTY_PENALTY <= n * EMPTY_PENALTY;
  }

  // ----- chart size -------------------------------------------------------

  function LaneCount(notes: seq<Note>, lane: nat, stage: Stage): nat {
    if notes == [] then 0
    else
      var n := |notes| - 1;
      LaneCount(notes[..n], lane, stage) + if notes[n].lane == lane && notes[n].stage == stage then 1 else 0
  }

  /** The k-th note of a lane and stage is at least (k-1) locks into the stage. */
  lemma {:induction false} LaneCountSpreads(notes: seq<Note>, lane: nat, stage: Stage) returns (last: int)
    requires LaneSpaced(notes) && Staged(notes) && stage != NoStage
    ensures LaneCount(notes, lane, stage) > 0 ==>
              && 0 <= last < |notes| && notes[last].lane == lane && notes[last].stage == stage
              && notes[last].target >= StageStart(stage) + (LaneCount(notes, lane, stage) - 1) * LANE_LOCK
  {
    last := -1;
    if notes != [] {
      var n := |notes| - 1;
      last := LaneCountSpreads(notes[..n], lane, stage);
      if notes[n].lane == lane && notes[n].stage == stage {
        if LaneCount(notes[..n], lane, stage) > 0 {
          assert notes[n].target - notes[last].target >= LANE_LOCK;
        }
        last := n;
      }
    }
  }

  /** At most 25 notes a second on any lane: 125 in calibration, 1250 scored. */
  lemma LaneCapacity(notes: seq<Note>, lane: nat, stage: Stage)
    requires LaneSpaced(notes) && Staged(notes) && stage != NoStage
    ensures LaneCount(notes, lane, stage) <= 25 * ((StageEnd(stage) - StageStart(stage)) / SECOND)
  {
    var last := LaneCountSpreads(notes, lane, stage);
  }

  function LaneTotal(notes: seq<Note>, lanes: nat): nat {
    if lanes == 0 then 0
    else LaneTotal(notes, lanes - 1) + LaneCount(notes, lanes - 1, Calibration) + LaneCount(notes, lanes - 1, Scored)
  }

  lemma {:induction false} LaneTotalStep(notes: seq<Note>, lanes: nat)
    requires notes != [] && notes[|notes| - 1].stage != NoStage
    ensures var n := |notes| - 1;
            LaneTotal(notes, lanes) == LaneTotal(notes[..n], lanes) + if notes[n].lane < lanes then 1 else 0
  {
    if lanes > 0 {
      LaneTotalStep(notes, lanes - 1);
    }
  }

  lemma {:induction false} LaneTotalCountsAll(notes: seq<Note>, lanes: nat)
    requires Staged(notes) && forall i :: 0 <= i < |notes| ==> notes[i].lane < lanes
    ensures LaneTotal(notes, lanes) == |notes|
  {
    if notes == [] {
      LaneTotalEmpty(lanes);
    } else {
      LaneTotalCountsAll(notes[..|notes| - 1], lanes);
      LaneTotalStep(notes, lanes);
    }
  }

  lemma {:induction false} LaneTotalEmpty(lanes: nat)
    ensures LaneTotal([], lanes) == 0
  {
    if lanes > 0 {
      LaneTotalEmpty(lanes - 1);
    }
  }

  lemma {:induction false} LaneTotalBound(notes: seq<Note>, lanes: nat)
    requires LaneSpaced(notes) && Staged(notes)
    ensures LaneTotal(notes, lanes) <= lanes * 25 * 55
  {
    if lanes > 0 {
      LaneTotalBound(notes, lanes - 1);
      LaneCapacity(notes, lanes - 1, Calibration);
      LaneCapacity(notes, lanes - 1, Scored);
    }
  }

  function FullTarget(k: nat): int {
    if k < 125 then CALIBRATION_START + k * LANE_LOCK else SCORED_START + (k - 125) * LANE_LOCK
  }

  lemma FullTargetsSpread(i: nat, j: nat)
    requires i < j < 25 * 55
    ensures FullTarget(j) - FullTarget(i) >= LANE_LOCK
  {
  }

  /** Rounds of one note a lane: the round and the lane of note i. */
  function RoundOf(i: nat, lanes: nat): nat
    requires lanes > 0
  {
    if i < lanes then 0 else 1 + RoundOf(i - lanes, lanes)
  }

  function LaneOf(i: nat, lanes: nat): (lane: nat)
    requires lanes > 0
    ensures lane < lanes
  {
    if i < lanes then i else LaneOf(i - lanes, lanes)
  }

  lemma {:induction false} RoundBelow(i: nat, lanes: nat, rounds: nat)
    requires lanes > 0 && i < lanes * rounds
    ensures RoundOf(i, lanes) < rounds
  {
    if i >= lanes {
      assert lanes * rounds == lanes * (rounds - 1) + lanes;
      RoundBelow(i - lanes, lanes, rounds - 1);
    }
  }

  /** A later note is in a later round, or in the same round on a later lane. */
  lemma {:induction false} LaterNote(lanes: nat, i: nat, j: nat)
    requires lanes > 0 && i < j
    ensures RoundOf(i, lanes) < RoundOf(j, lanes) || (RoundOf(i, lanes) == RoundOf(j, lanes) && LaneOf(i, lanes) < LaneOf(j, lanes))
  {
    if i >= lanes { LaterNote(lanes, i - lanes, j - lanes); }
  }

  /** Note i of the fullest chart: every lane once every lane lock through both stages,
      each offset by its index in nanoseconds. */
  function FullNote(lanes: nat, i: nat): Note
    requires 0 < lanes <= MAX_LANES && i < lanes * (25 * 55)
    ensures TargetInStage(FullNote(lanes, i).target, FullNote(lanes, i).stage)
  {
    RoundBelow(i, lanes, 25 * 55);
    var round, lane := RoundOf(i, lanes), LaneOf(i, lanes);
    Note(i, lane, FullTarget(round) + lane, if round < 125 then Calibration else Scored, false)
  }

  lemma FullNotesSpread(lanes: nat, i: nat, j: nat)
    requires 0 < lanes <= MAX_LANES && i < j < lanes * (25 * 55)
    ensures FullNote(lanes, i).target < FullNote(lanes, j).target
    ensures FullNote(lanes, i).lane == FullNote(lanes, j).lane ==> FullNote(lanes, j).target - FullNote(lanes, i).target >= LANE_LOCK
  {
    LaterNote(lanes, i, j);
    RoundBelow(j, lanes, 25 * 55);
    if RoundOf(i, lanes) < RoundOf(j, lanes) { FullTargetsSpread(RoundOf(i, lanes), RoundOf(j, lanes)); }
  }

  function FullChart(lanes: nat): seq<Note>
    requires 0 < lanes <= MAX_LANES
  {
    seq(lanes * (25 * 55), i requires 0 <= i < lanes * (25 * 55) => FullNote(lanes, i))
  }

  /** The bound on a chart's length is reached for every number of lanes, by a chart with
      strictly increasing targets. */
  lemma CapacityIsReached(lanes: nat)
    requires 0 < lanes <= MAX_LANES
    ensures ChartAccepted(lanes, FullChart(lanes)) && |FullChart(lanes)| == lanes * 25 * 55
    ensures forall i, j :: 0 <= i < j < |FullChart(lanes)| ==> FullChart(lanes)[i].target < FullChart(lanes)[j].target
  {
    var notes := FullChart(lanes);
    forall i, j | 0 <= i < j < |notes|
      ensures notes[i].target < notes[j].target && notes[i].id != notes[j].id
      ensures notes[i].lane == notes[j].lane ==> notes[j].target - notes[i].target >= LANE_LOCK
    {
      FullNotesSpread(lanes, i, j);
    }
  }

  /** No accepted chart outgrows the storage the generator reserves. */
  lemma ChartFitsReserve(lanes: nat, notes: seq<Note>)
    requires ChartAccepted(lanes, notes)
    ensures |notes| <= lanes * 25 * 55
  {
    LaneTotalCountsAll(notes, lanes);
    LaneTotalBound(notes, lanes);
  }
}
