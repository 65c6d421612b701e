/** What the generator does with its words, said of the notes it leaves. */
module GeneratorTheorems {
  import opened Options
  import opened Core
  import opened Judging
  import opened Scoring
  import opened EngineRules
  import opened ReplayRules
  import opened Generator

  // ----- one attempt ------------------------------------------------------------

  predicate AllLocked(lanes: nat, notes: seq<Note>, target: int) {
    forall l :: 0 <= l < lanes ==> Locked(notes, l, target)
  }

  /** How many of the first n lanes are not locked at the target. */
  function OpenLanes(notes: seq<Note>, n: nat, target: int): nat {
    if n == 0 then 0 else OpenLanes(notes, n - 1, target) + if Locked(notes, n - 1, target) then 0 else 1
  }

  lemma {:induction false} OpenLanesRank(lanes: nat, nextAvailable: seq<int>, notes: seq<Note>, target: int)
    requires lanes <= |nextAvailable|
    requires forall l :: 0 <= l < lanes ==> (target >= nextAvailable[l] <==> !Locked(notes, l, target))
    ensures var free := FreeLanes(lanes, nextAvailable, target);
            |free| == OpenLanes(notes, lanes, target) && forall k :: 0 <= k < |free| ==> OpenLanes(notes, free[k], target) == k
  {
    if lanes > 0 { OpenLanesRank(lanes - 1, nextAvailable, notes, target); }
  }

  /** Where the attempt that draws this word falls. */
  function AttemptAt(waitOf: Word -> int, word: Word, g: Gen): int {
    g.target + if waitOf(word) > 1 then waitOf(word) else 1
  }

  /** No lane was open at the target, so the attempt only counts. */
  predicate Dropped(lanes: nat, g: Gen, next: Gen) {
    && AllLocked(lanes, g.notes, next.target)
    && next.notes == g.notes && next.pos == g.pos + 1
    && next.stats == Stats(g.stats.attempts + 1, g.stats.emitted, g.stats.dropped + 1)
  }

  /** The lane drawn: open, and of the rank the first accepted word says. */
  predicate Drawn(lanes: nat, words: seq<Word>, g: Gen, target: int, pos: nat, lane: nat) {
    var open := OpenLanes(g.notes, lanes, target);
    && lane < lanes && !Locked(g.notes, lane, target)
    && open > 0 && pos > g.pos + 1 && FirstAccepted(words, g.pos + 1, pos - 1, open)
    && OpenLanes(g.notes, lane, target) == words[pos - 1] % open
  }

  /** One note is added, on the open lane whose rank among the open ones is the residue of
      the first accepted word. */
  predicate Emitted(lanes: nat, words: seq<Word>, stage: Stage, g: Gen, next: Gen, lane: nat) {
    && Drawn(lanes, words, g, next.target, next.pos, lane)
    && |next.notes| == |g.notes| + 1 && next.notes[..|g.notes|] == g.notes
    && next.notes[|g.notes|].lane == lane && next.notes[|g.notes|].target == next.target
    && next.notes[|g.notes|].id == |g.notes| && next.notes[|g.notes|].stage == stage && !next.notes[|g.notes|].consumed
    && next.stats == Stats(g.stats.attempts + 1, g.stats.emitted + 1, g.stats.dropped)
  }

  ghost predicate Placed(lanes: nat, words: seq<Word>, stage: Stage, g: Gen, next: Gen) {
    Dropped(lanes, g, next) || exists lane: nat :: Emitted(lanes, words, stage, g, next, lane)
  }

  /** A lane is open, but every word left is rejected. */
  predicate OutOfWords(lanes: nat, words: seq<Word>, g: Gen, target: int) {
    var open := OpenLanes(g.notes, lanes, target);
    !AllLocked(lanes, g.notes, target) && open > 0 && forall j :: g.pos < j < |words| ==> words[j] < WORDS % open
  }

  /** Every attempt of every stage: it falls one drawn wait, at least a nanosecond, after
      the last; it ends the stage exactly when that is past its end; it adds a note unless
      every lane is locked there; and it gives up only when the words run out. */
  lemma AttemptExactly(lanes: nat, waitOf: Word -> int, words: seq<Word>, stage: Stage, g: Gen)
    requires Generator.Good(lanes, |words|, stage, g)
    ensures var o := Attempt(lanes, waitOf, words, stage, g);
            if g.pos == |words| then o.Exhausted?
            else
              var target := AttemptAt(waitOf, words[g.pos], g);
              && (o.Ended? <==> target >= StageEnd(stage))
              && (o.Ended? ==> o.end == g.(pos := g.pos + 1))
              && (o.Next? ==> o.next.target == target && Placed(lanes, words, stage, g, o.next))
              && (o.Exhausted? ==> OutOfWords(lanes, words, g, target))
  {
    if g.pos < |words| {
      var target := AttemptAt(waitOf, words[g.pos], g);
      if target < StageEnd(stage) { PlacedExactly(lanes, waitOf, words, stage, g); }
    }
  }

  lemma LanesRanked(lanes: nat, words: nat, stage: Stage, g: Gen, target: int)
    requires Generator.Good(lanes, words, stage, g) && target > g.target
    ensures var free := FreeLanes(lanes, g.nextAvailable, target);
            && |free| == OpenLanes(g.notes, lanes, target)
            && (forall k :: 0 <= k < |free| ==>
                  free[k] < lanes && !Locked(g.notes, free[k], target) && OpenLanes(g.notes, free[k], target) == k)
            && (free == [] <==> AllLocked(lanes, g.notes, target))
  {
    var free := FreeLanes(lanes, g.nextAvailable, target);
    forall l | 0 <= l < lanes
      ensures target >= g.nextAvailable[l] <==> !Locked(g.notes, l, target)
    {
      OpensUnlocked(lanes, words, stage, g, target, l);
    }
    OpenLanesRank(lanes, g.nextAvailable, g.notes, target);
    DropsOnlyWhenLocked(lanes, words, stage, g, target);
    forall k | 0 <= k < |free|
      ensures free[k] < lanes && !Locked(g.notes, free[k], target)
    {
      assert free[k] in free;
    }
  }

  ghost predicate PlacedAt(lanes: nat, words: seq<Word>, stage: Stage, g: Gen, o: Outcome, target: int) {
    o.Next? && o.next.target == target && Placed(lanes, words, stage, g, o.next)
  }

  lemma EmitPlaces(lanes: nat, words: seq<Word>, stage: Stage, g: Gen, target: int, pos: nat, lane: nat, o: Outcome)
    requires lane < |g.nextAvailable| && |g.notes| <= UINT64_MAX && INT64_MIN <= target <= INT64_MAX && target > g.target
    requires Drawn(lanes, words, g, target, pos, lane) && o == Next(Emit(g, target - g.target, pos, lane, stage))
    ensures PlacedAt(lanes, words, stage, g, o, target)
  {
    assert Emitted(lanes, words, stage, g, o.next, lane);
  }

  lemma AttemptDraws(lanes: nat, waitOf: Word -> int, words: seq<Word>, stage: Stage, g: Gen, wait: nat, free: seq<nat>)
    requires Generator.Good(lanes, |words|, stage, g) && g.pos < |words|
    requires wait == Wait(waitOf, words[g.pos]) < StageEnd(stage) - g.target
    requires free == FreeLanes(lanes, g.nextAvailable, g.target + wait)
    ensures free == [] ==> Attempt(lanes, waitOf, words, stage, g) == Next(Drop(g, wait))
    ensures free != [] ==> (Attempt(lanes, waitOf, words, stage, g).Exhausted? <==> Uniform(words, g.pos + 1, |free|).None?)
  {
  }

  lemma LaneFits(lanes: nat, words: nat, stage: Stage, g: Gen, target: int, lane: nat)
    requires Generator.Good(lanes, words, stage, g) && g.target < target < StageEnd(stage)
    requires lane in FreeLanes(lanes, g.nextAvailable, target)
    ensures lane < |g.nextAvailable| && |g.notes| <= UINT64_MAX && INT64_MIN <= target <= INT64_MAX
  {
    RoomForId(lanes, words, stage, g);
  }

  lemma AttemptEmits(lanes: nat, waitOf: Word -> int, words: seq<Word>, stage: Stage, g: Gen, wait: nat, free: seq<nat>, pos: nat, k: nat)
    requires Generator.Good(lanes, |words|, stage, g) && g.pos < |words|
    requires wait == Wait(waitOf, words[g.pos]) < StageEnd(stage) - g.target
    requires free == FreeLanes(lanes, g.nextAvailable, g.target + wait) && k < |free|
    requires Uniform(words, g.pos + 1, |free|) == Some((pos, k))
    requires free[k] < |g.nextAvailable| && |g.notes| <= UINT64_MAX && INT64_MIN <= g.target + wait <= INT64_MAX
    ensures Attempt(lanes, waitOf, words, stage, g) == Next(Emit(g, wait, pos, free[k], stage))
  {
  }

  lemma LaneIsDrawn(lanes: nat, words: seq<Word>, stage: Stage, g: Gen, target: int, free: seq<nat>) returns (pos: nat, k: nat)
    requires Generator.Good(lanes, |words|, stage, g) && g.pos < |words| && g.target < target
    requires free == FreeLanes(lanes, g.nextAvailable, target) && free != [] && Uniform(words, g.pos + 1, |free|).Some?
    ensures Uniform(words, g.pos + 1, |free|) == Some((pos, k))
    ensures k < |free| && Drawn(lanes, words, g, target, pos, free[k])
  {
    LanesRanked(lanes, |words|, stage, g, target);
    UniformExactly(words, g.pos + 1, |free|);
    pos, k := Uniform(words, g.pos + 1, |free|).value.0, Uniform(words, g.pos + 1, |free|).value.1;
  }

  lemma OpenDraws(lanes: nat, waitOf: Word -> int, words: seq<Word>, stage: Stage, g: Gen, target: int, free: seq<nat>)
    returns (pos: nat, lane: nat)
    requires Generator.Good(lanes, |words|, stage, g) && g.pos < |words|
    requires target == AttemptAt(waitOf, words[g.pos], g) < StageEnd(stage)
    requires free == FreeLanes(lanes, g.nextAvailable, target) && free != [] && Uniform(words, g.pos + 1, |free|).Some?
    ensures Drawn(lanes, words, g, target, pos, lane)
    ensures lane < |g.nextAvailable| && |g.notes| <= UINT64_MAX && INT64_MIN <= target <= INT64_MAX
    ensures Attempt(lanes, waitOf, words, stage, g) == Next(Emit(g, target - g.target, pos, lane, stage))
  {
    var k;
    pos, k := LaneIsDrawn(lanes, words, stage, g, target, free);
    lane := free[k];
    LaneFits(lanes, |words|, stage, g, target, lane);
    AttemptEmits(lanes, waitOf, words, stage, g, target - g.target, free, pos, k);
  }

  lemma OpenPlaces(lanes: nat, waitOf: Word -> int, words: seq<Word>, stage: Stage, g: Gen, target: int, free: seq<nat>)
    requires Generator.Good(lanes, |words|, stage, g) && g.pos < |words|
    requires target == AttemptAt(waitOf, words[g.pos], g) < StageEnd(stage)
    requires free == FreeLanes(lanes, g.nextAvailable, target) && free != [] && Uniform(words, g.pos + 1, |free|).Some?
    ensures PlacedAt(lanes, words, stage, g, Attempt(lanes, waitOf, words, stage, g), target)
  {
    var pos, lane := OpenDraws(lanes, waitOf, words, stage, g, target, free);
    EmitPlaces(lanes, words, stage, g, target, pos, lane, Attempt(lanes, waitOf, words, stage, g));
  }

  lemma PlacedExactly(lanes: nat, waitOf: Word -> int, words: seq<Word>, stage: Stage, g: Gen)
    requires Generator.Good(lanes, |words|, stage, g) && g.pos < |words| && AttemptAt(waitOf, words[g.pos], g) < StageEnd(stage)
    ensures var o, target := Attempt(lanes, waitOf, words, stage, g), AttemptAt(waitOf, words[g.pos], g);
            && !o.Ended?
            && (o.Next? ==> o.next.target == target && Placed(lanes, words, stage, g, o.next))
            && (o.Exhausted? ==> OutOfWords(lanes, words, g, target))
  {
    var target := AttemptAt(waitOf, words[g.pos], g);
    var free := FreeLanes(lanes, g.nextAvailable, target);
    LanesRanked(lanes, |words|, stage, g, target);
    if free == [] {
      AttemptDraws(lanes, waitOf, words, stage, g, target - g.target, free);
    } else if Uniform(words, g.pos + 1, |free|).Some? {
      OpenPlaces(lanes, waitOf, words, stage, g, target, free);
    } else {
      AttemptDraws(lanes, waitOf, words, stage, g, target - g.target, free);
      UniformExactly(words, g.pos + 1, |free|);
    }
  }

  // ----- whole charts --------------------------------------------------------------

  predicate HasNote(notes: seq<Note>, stage: Stage, target: int) {
    exists i :: 0 <= i < |notes| && notes[i].stage == stage && notes[i].target == target
  }

  /** The targets of the attempts of one stage, in order: the chart has a note at each,
      or at that time every lane was locked by one of its notes. */
  predicate Traced(lanes: nat, notes: seq<Note>, stage: Stage, after: int, targets: seq<int>)
    requires stage != NoStage
  {
    && (forall k :: 0 <= k < |targets| ==> after < targets[k] < StageEnd(stage))
    && (forall j, k :: 0 <= j < k < |targets| ==> targets[j] < targets[k])
    && (forall k :: 0 <= k < |targets| ==> HasNote(notes, stage, targets[k]) || AllLocked(lanes, notes, targets[k]))
  }

  lemma LockedGrows(lanes: nat, notes: seq<Note>, more: seq<Note>, target: int)
    requires notes <= more
    ensures AllLocked(lanes, notes, target) ==> AllLocked(lanes, more, target)
    ensures forall stage :: HasNote(notes, stage, target) ==> HasNote(more, stage, target)
  {
    if AllLocked(lanes, notes, target) {
      forall l | 0 <= l < lanes
        ensures Locked(more, l, target)
      {
        assert Locked(notes, l, target);
        var i :| 0 <= i < |notes| && notes[i].lane == l && 0 < target - notes[i].target < LANE_LOCK;
        assert more[i] == notes[i];
      }
    }
    forall stage | HasNote(notes, stage, target)
      ensures HasNote(more, stage, target)
    {
      var i :| 0 <= i < |notes| && notes[i].stage == stage && notes[i].target == target;
      assert more[i] == notes[i];
    }
  }

  /** One attempt leaves a note at its target or found all lanes locked there. */
  lemma AttemptTraced(lanes: nat, waitOf: Word -> int, words: seq<Word>, stage: Stage, g: Gen)
    requires Generator.Good(lanes, |words|, stage, g) && Attempt(lanes, waitOf, words, stage, g).Next?
    ensures var next := Attempt(lanes, waitOf, words, stage, g).next;
            && g.notes <= next.notes && g.target < next.target < StageEnd(stage)
            && (HasNote(next.notes, stage, next.target) || AllLocked(lanes, next.notes, next.target))
            && next.stats.attempts == g.stats.attempts + 1
            && (|next.notes| - |g.notes| == next.stats.emitted - g.stats.emitted)
  {
    AttemptExactly(lanes, waitOf, words, stage, g);
    var next := Attempt(lanes, waitOf, words, stage, g).next;
    if !Dropped(lanes, g, next) { assert HasNote(next.notes, stage, next.notes[|g.notes|].target); }
  }

  lemma TracedOnward(lanes: nat, notes: seq<Note>, stage: Stage, after: int, target: int, rest: seq<int>)
    requires stage != NoStage && after < target < StageEnd(stage) && Traced(lanes, notes, stage, target, rest)
    requires HasNote(notes, stage, target) || AllLocked(lanes, notes, target)
    ensures Traced(lanes, notes, stage, after, [target] + rest)
  {
  }

  lemma {:induction false} StageTraced(lanes: nat, waitOf: Word -> int, words: seq<Word>, stage: Stage, g: Gen) returns (targets: seq<int>)
    requires Generator.Good(lanes, |words|, stage, g) && StageRun(lanes, waitOf, words, stage, g).Some?
    ensures var r := StageRun(lanes, waitOf, words, stage, g).value;
            && g.notes <= r.notes && Traced(lanes, r.notes, stage, g.target, targets)
            && |targets| == r.stats.attempts - g.stats.attempts
            && |r.notes| - |g.notes| == r.stats.emitted - g.stats.emitted
    decreases |words| - g.pos
  {
    match Attempt(lanes, waitOf, words, stage, g)
    case Ended(_) => targets := [];
    case Next(next) =>
      AttemptTraced(lanes, waitOf, words, stage, g);
      var rest := StageTraced(lanes, waitOf, words, stage, next);
      var r := StageRun(lanes, waitOf, words, stage, next).value;
      LockedGrows(lanes, next.notes, r.notes, next.target);
      TracedOnward(lanes, r.notes, stage, g.target, next.target, rest);
      targets := [next.target] + rest;
  }

  lemma TracedGrows(lanes: nat, notes: seq<Note>, more: seq<Note>, stage: Stage, after: int, targets: seq<int>)
    requires stage != NoStage && Traced(lanes, notes, stage, after, targets) && notes <= more
    ensures Traced(lanes, more, stage, after, targets)
  {
    forall k | 0 <= k < |targets|
      ensures HasNote(more, stage, targets[k]) || AllLocked(lanes, more, targets[k])
    {
      LockedGrows(lanes, notes, more, targets[k]);
    }
  }

  /** Every attempt a returned chart counts, in either stage, left a note at its target or
      fell while every lane was locked by notes of the chart; so no lane stays silent for
      any other reason, and every note is an attempt counted as emitted. */
  lemma ChartTraced(lanes: nat, waitOf: Word -> int, words: seq<Word>) returns (calibration: seq<int>, scored: seq<int>)
    requires lanes <= MAX_LANES && Generate(lanes, waitOf, words).Some?
    ensures var chart := Generate(lanes, waitOf, words).value;
            && Traced(lanes, chart.notes, Calibration, CALIBRATION_START, calibration) && |calibration| == chart.calibration.attempts
            && Traced(lanes, chart.notes, Scored, SCORED_START, scored) && |scored| == chart.scored.attempts
            && |chart.notes| == chart.calibration.emitted + chart.scored.emitted
  {
    BeginIsGood(lanes, |words|);
    calibration := StageTraced(lanes, waitOf, words, Calibration, Begin());
    var first := StageRun(lanes, waitOf, words, Calibration, Begin()).value;
    NextStageIsGood(lanes, |words|, first);
    scored := StageTraced(lanes, waitOf, words, Scored, NextStage(first));
    TracedGrows(lanes, first.notes, Generate(lanes, waitOf, words).value.notes, Calibration, CALIBRATION_START, calibration);
  }

  // ----- a chart is returned ---------------------------------------------------------

  /** No draw among up to sixteen lanes rejects these words. */
  predicate Unrejected(words: seq<Word>) {
    forall i :: 0 <= i < |words| ==> words[i] >= MAX_LANES
  }

  lemma OpenAtMost(notes: seq<Note>, n: nat, target: int)
    ensures OpenLanes(notes, n, target) <= n
  {
  }

  /** With such words, and two of them left, an attempt does not run out; it takes two at
      most. */
  lemma AttemptGoesOn(lanes: nat, waitOf: Word -> int, words: seq<Word>, stage: Stage, g: Gen)
    requires Generator.Good(lanes, |words|, stage, g) && Unrejected(words) && g.pos + 2 <= |words|
    ensures var o := Attempt(lanes, waitOf, words, stage, g);
            !o.Exhausted? && (o.Ended? ==> o.end.pos <= g.pos + 2) && (o.Next? ==> o.next.pos <= g.pos + 2 && o.next.target > g.target)
  {
    AttemptExactly(lanes, waitOf, words, stage, g);
    var o, target := Attempt(lanes, waitOf, words, stage, g), AttemptAt(waitOf, words[g.pos], g);
    OpenAtMost(g.notes, lanes, target);
    var open := OpenLanes(g.notes, lanes, target);
    assert open > 0 ==> WORDS % open < open <= MAX_LANES;
    assert words[g.pos + 1] >= MAX_LANES;
    if o.Next? && !Dropped(lanes, g, o.next) { assert o.next.pos - 1 <= g.pos + 1; }
  }

  lemma {:induction false} StageReturns(lanes: nat, waitOf: Word -> int, words: seq<Word>, stage: Stage, g: Gen)
    requires Generator.Good(lanes, |words|, stage, g) && Unrejected(words)
    requires g.pos + 2 * (StageEnd(stage) - g.target) <= |words|
    ensures var r := StageRun(lanes, waitOf, words, stage, g);
            r.Some? && r.value.pos <= g.pos + 2 * (StageEnd(stage) - g.target)
    decreases |words| - g.pos
  {
    AttemptGoesOn(lanes, waitOf, words, stage, g);
    var o := Attempt(lanes, waitOf, words, stage, g);
    if o.Next? { StageReturns(lanes, waitOf, words, stage, o.next); }
  }

  /** Given enough words, none of the sixteen smallest among them, a chart is returned. */
  lemma GenerateReturns(lanes: nat, waitOf: Word -> int, words: seq<Word>)
    requires lanes <= MAX_LANES && Unrejected(words) && |words| >= 2 * 55 * SECOND
    ensures Generate(lanes, waitOf, words).Some?
  {
    BeginIsGood(lanes, |words|);
    StageReturns(lanes, waitOf, words, Calibration, Begin());
    var first := StageRun(lanes, waitOf, words, Calibration, Begin()).value;
    NextStageIsGood(lanes, |words|, first);
    StageReturns(lanes, waitOf, words, Scored, NextStage(first));
  }
}
