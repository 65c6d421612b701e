/** Chart generation from a finite list of random words.  Running out of words is
    the random source throwing, which aborts the run (None).  The exponential wait
    derived from a word is an arbitrary integer function of it. */
module Generator {
  import opened Options
  import opened Core
  import opened Judging
  import opened Scoring
  import opened EngineRules
  import opened ReplayRules

  const WORDS: int := 0x1_0000_0000_0000_0000

  type Word = w: int | 0 <= w < WORDS

  // ----- uniform_below ------------------------------------------------------

  /** The rejection limit: unsigned negation of the bound, modulo the bound. */
  function RejectionLimit(bound: int): int
    requires 0 < bound < WORDS
  {
    (WORDS - bound) % bound
  }

  /** The first accepted word from pos on, reduced; and the position after it. */
  function Uniform(words: seq<Word>, pos: nat, bound: int): (r: Option<(nat, nat)>)
    requires pos <= |words| && 0 < bound < WORDS
    ensures r.Some? ==> pos < r.value.0 <= |words| && r.value.1 < bound
    decreases |words| - pos
  {
    if pos == |words| then None
    else if words[pos] >= RejectionLimit(bound) then Some((pos + 1, words[pos] % bound))
    else Uniform(words, pos + 1, bound)
  }

  method UniformBelow(words: seq<Word>, start: nat, bound: int) returns (r: Option<(nat, nat)>)
    requires start <= |words| && 0 < bound < WORDS
    ensures r == Uniform(words, start, bound)
  {
    var limit := RejectionLimit(bound);
    var pos := start;
    while pos < |words|
      invariant start <= pos <= |words|
      invariant Uniform(words, start, bound) == Uniform(words, pos, bound)
    {
      var word := words[pos];
      pos := pos + 1;
      if word >= limit { return Some((pos, word % bound)); }
    }
    r := None;
  }

  ghost function Accepted(low: int, high: int, bound: int, residue: int): set<int>
    requires bound > 0
  {
    set w | low <= w < high && w % bound == residue :: w
  }

  lemma MultipleGrows(d: int, bound: int)
    requires bound > 0
    ensures d >= 1 ==> d * bound >= bound
    ensures d <= -1 ==> d * bound <= -bound
  {
  }

  lemma DivisionUnique(x: int, bound: int, q: int, r: int)
    requires bound > 0 && x == q * bound + r && 0 <= r < bound
    ensures x / bound == q && x % bound == r
  {
    var d := x / bound - q;
    assert x == (x / bound) * bound + x % bound;
    assert d * bound == r - x % bound;
    MultipleGrows(d, bound);
  }

  /** The word of this residue among the bound consecutive words from low on. */
  lemma InBlock(low: int, bound: int, residue: int) returns (w: int)
    requires 0 <= residue < bound
    ensures low <= w < low + bound && w % bound == residue
  {
    w := low + (residue - low) % bound;
    var q := (residue - low) / bound;
    assert residue - low == q * bound + (residue - low) % bound;
    assert w == (-q) * bound + residue;
    DivisionUnique(w, bound, -q, residue);
  }

  lemma OneInBlock(v: int, w: int, bound: int)
    requires bound > 0 && -bound < v - w < bound && v % bound == w % bound
    ensures v == w
  {
    var e := v / bound - w / bound;
    assert v == (v / bound) * bound + v % bound && w == (w / bound) * bound + w % bound;
    assert v - w == e * bound;
    MultipleGrows(e, bound);
  }

  /** Any run of bound consecutive words holds each residue exactly once. */
  lemma OnePerBlock(low: int, bound: int, residue: int)
    requires 0 <= residue < bound
    ensures |Accepted(low, low + bound, bound, residue)| == 1
  {
    var w := InBlock(low, bound, residue);
    forall v | low <= v < low + bound && v % bound == residue
      ensures v == w
    {
      OneInBlock(v, w, bound);
    }
    assert Accepted(low, low + bound, bound, residue) == {w};
  }

  lemma {:induction false} EqualShares(low: int, blocks: nat, bound: int, residue: int)
    requires 0 <= residue < bound
    ensures |Accepted(low, low + blocks * bound, bound, residue)| == blocks
  {
    if blocks == 0 {
      assert Accepted(low, low, bound, residue) == {};
    } else {
      EqualShares(low, blocks - 1, bound, residue);
      var mid, high := low + (blocks - 1) * bound, low + blocks * bound;
      assert high == mid + bound;
      OnePerBlock(mid, bound, residue);
      var a, b := Accepted(low, mid, bound, residue), Accepted(mid, high, bound, residue);
      assert low <= mid by { assert (blocks - 1) * bound >= 0; }
      assert a !! b;
      assert Accepted(low, high, bound, residue) == a + b;
    }
  }

  /** Exact uniformity: over all 64-bit words, every residue below the bound is
      returned for the same number of accepted words, with none left over. */
  lemma UniformIsExact(bound: int, residue: int)
    requires 0 <= residue < bound < WORDS
    ensures RejectionLimit(bound) == WORDS % bound
    ensures |Accepted(RejectionLimit(bound), WORDS, bound, residue)| == (WORDS - RejectionLimit(bound)) / bound
    ensures (WORDS - RejectionLimit(bound)) % bound == 0
  {
    var q, r := WORDS / bound, WORDS % bound;
    assert WORDS == q * bound + r;
    assert WORDS - bound == (q - 1) * bound + r;
    DivisionUnique(WORDS - bound, bound, q - 1, r);
    assert q * bound >= 0;
    assert q >= 0;
    DivisionUnique(WORDS - r, bound, q, 0);
    EqualShares(r, q, bound, residue);
  }

  /** Word number i is the first from pos on that is not among the WORDS % bound smallest. */
  predicate FirstAccepted(words: seq<Word>, pos: nat, i: nat, bound: int)
    requires bound > 0
  {
    pos <= i < |words| && words[i] >= WORDS % bound && forall j :: pos <= j < i ==> words[j] < WORDS % bound
  }

  /** A draw gives the residue of the first accepted word, and nothing only if there is none. */
  lemma UniformExactly(words: seq<Word>, pos: nat, bound: int)
    requires pos <= |words| && 0 < bound < WORDS
    ensures match Uniform(words, pos, bound)
            case Some((next, residue)) => next > pos && FirstAccepted(words, pos, next - 1, bound) && residue == words[next - 1] % bound
            case None => forall j :: pos <= j < |words| ==> words[j] < WORDS % bound
    decreases |words| - pos
  {
    UniformIsExact(bound, 0);
    if pos < |words| && words[pos] < RejectionLimit(bound) { UniformExactly(words, pos + 1, bound); }
  }

  ghost function Drawing(bound: int, residue: int): set<int>
    requires 0 < bound < WORDS
  {
    set w: int | 0 <= w < WORDS && Uniform([w], 0, bound) == Some((1, residue))
  }

  /** A draw is fair: among all 64-bit words every residue is drawn by equally many. */
  lemma UniformIsFair(bound: int, residue: int)
    requires 0 <= residue < bound < WORDS
    ensures |Drawing(bound, residue)| == WORDS / bound
  {
    UniformIsExact(bound, residue);
    assert Drawing(bound, residue) == Accepted(RejectionLimit(bound), WORDS, bound, residue);
    var q, r := WORDS / bound, WORDS % bound;
    DivisionUnique(WORDS - r, bound, q, 0);
  }

  // ----- one stage ----------------------------------------------------------

  datatype Stats = Stats(attempts: nat, emitted: nat, dropped: nat)

  datatype Gen = Gen(pos: nat, target: int, nextAvailable: seq<int>, notes: seq<Note>, stats: Stats)

  datatype Chart = Chart(notes: seq<Note>, calibration: Stats, scored: Stats)

  function FreeLanes(lanes: nat, nextAvailable: seq<int>, target: int): (free: seq<nat>)
    requires lanes <= |nextAvailable|
    ensures forall l :: l in free <==> 0 <= l < lanes && target >= nextAvailable[l]
    ensures |free| <= lanes
  {
    if lanes == 0 then []
    else FreeLanes(lanes - 1, nextAvailable, target) + if target >= nextAvailable[lanes - 1] then [lanes - 1] else []
  }

  /** When a lane opens again: one lock after its last note. */
  function OpensAt(notes: seq<Note>, lane: nat): int {
    if LastTarget(notes, lane) == INT64_MIN then 0 else LastTarget(notes, lane) + LANE_LOCK
  }

  predicate StrictlyIncreasing(notes: seq<Note>) {
    forall i, j :: 0 <= i < j < |notes| ==> notes[i].target < notes[j].target
  }

  /** What the generator's variables satisfy at every attempt of a stage. */
  predicate Good(lanes: nat, words: nat, stage: Stage, g: Gen) {
    && stage != NoStage && lanes <= MAX_LANES && g.pos <= words
    && GoodChart(lanes, g.notes)
    && (g.notes != [] ==> g.notes[|g.notes| - 1].target <= g.target)
    && GoodLocks(g.notes, g.nextAvailable)
    && GoodStats(stage, g)
  }

  predicate GoodChart(lanes: nat, notes: seq<Note>) {
    Generated(lanes, notes) && StrictlyIncreasing(notes)
  }

  predicate GoodLocks(notes: seq<Note>, nextAvailable: seq<int>) {
    |nextAvailable| == MAX_LANES && forall l :: 0 <= l < MAX_LANES ==> nextAvailable[l] == OpensAt(notes, l)
  }

  predicate GoodStats(stage: Stage, g: Gen)
    requires stage != NoStage
  {
    && StageStart(stage) <= g.target < StageEnd(stage)
    && g.stats.attempts == g.stats.emitted + g.stats.dropped <= g.target - StageStart(stage)
    && g.stats.emitted == NoteCount(g.notes, stage)
    && (stage == Calibration ==> NoteCount(g.notes, Scored) == 0)
  }

  function Wait(waitOf: Word -> int, word: Word): nat {
    if waitOf(word) < 1 then 1 else waitOf(word)
  }

  function Drop(g: Gen, wait: nat): Gen {
    g.(pos := g.pos + 1, target := g.target + wait,
       stats := Stats(g.stats.attempts + 1, g.stats.emitted, g.stats.dropped + 1))
  }

  function Emit(g: Gen, wait: nat, pos: nat, lane: nat, stage: Stage): Gen
    requires lane < |g.nextAvailable| && |g.notes| <= UINT64_MAX && INT64_MIN <= g.target + wait <= INT64_MAX
  {
    var target := g.target + wait;
    Gen(pos, target, g.nextAvailable[lane := target + LANE_LOCK],
        g.notes + [Note(|g.notes|, lane, target, stage, false)],
        Stats(g.stats.attempts + 1, g.stats.emitted + 1, g.stats.dropped))
  }

  lemma RoomForId(lanes: nat, words: nat, stage: Stage, g: Gen)
    requires Good(lanes, words, stage, g)
    ensures |g.notes| < UINT64_MAX
  {
    ChartFitsReserve(lanes, g.notes);
  }

  /** An emitted note keeps the chart acceptable and its targets increasing. */
  lemma EmitExtends(lanes: nat, notes: seq<Note>, nextAvailable: seq<int>, target: int, note: Note)
    requires GoodChart(lanes, notes) && (notes != [] ==> notes[|notes| - 1].target <= target)
    requires lanes <= MAX_LANES == |nextAvailable| && note.lane < lanes && nextAvailable[note.lane] == OpensAt(notes, note.lane)
    requires !note.consumed && TargetInStage(note.target, note.stage)
    requires note.id == |notes| < UINT64_MAX && target < note.target && note.target >= nextAvailable[note.lane]
    ensures GoodChart(lanes, notes + [note])
  {
    var more := notes + [note];
    NewIdIsFresh(notes);
    AcceptStep(lanes, notes, note, IdsOf(notes));
    forall i | 0 <= i < |notes|
      ensures more[i].target < note.target && more[i].id == i
    {
      assert notes[i].target <= notes[|notes| - 1].target;
    }
  }

  lemma EmitLocks(notes: seq<Note>, nextAvailable: seq<int>, note: Note)
    requires GoodLocks(notes, nextAvailable) && note.lane < MAX_LANES && note.target != INT64_MIN
    ensures GoodLocks(notes + [note], nextAvailable[note.lane := note.target + LANE_LOCK])
  {
    assert (notes + [note])[..|notes|] == notes;
  }

  lemma EmitStats(stage: Stage, g: Gen, wait: nat, pos: nat, lane: nat)
    requires stage != NoStage && GoodStats(stage, g) && 1 <= wait < StageEnd(stage) - g.target
    requires lane < |g.nextAvailable| && |g.notes| <= UINT64_MAX
    ensures GoodStats(stage, Emit(g, wait, pos, lane, stage))
    ensures stage == Scored ==> NoteCount(Emit(g, wait, pos, lane, stage).notes, Calibration) == NoteCount(g.notes, Calibration)
  {
    var more := Emit(g, wait, pos, lane, stage).notes;
    assert more[..|g.notes|] == g.notes;
  }

  lemma EmitFits(stage: Stage, g: Gen, wait: nat, pos: nat, lane: nat)
    requires lane < |g.nextAvailable| && |g.notes| <= UINT64_MAX && INT64_MIN <= g.target + wait <= INT64_MAX
    ensures var e, note := Emit(g, wait, pos, lane, stage), Note(|g.notes|, lane, g.target + wait, stage, false);
            && e.notes == g.notes + [note] && e.nextAvailable == g.nextAvailable[lane := note.target + LANE_LOCK]
            && e.notes[|e.notes| - 1].target == e.target && e.pos == pos
  {
  }

  lemma EmitIsGood(lanes: nat, words: nat, stage: Stage, g: Gen, wait: nat, pos: nat, lane: nat)
    requires Good(lanes, words, stage, g) && 1 <= wait < StageEnd(stage) - g.target && pos <= words
    requires lane < lanes && g.target + wait >= g.nextAvailable[lane] && |g.notes| < UINT64_MAX
    ensures Good(lanes, words, stage, Emit(g, wait, pos, lane, stage))
    ensures stage == Scored ==> NoteCount(Emit(g, wait, pos, lane, stage).notes, Calibration) == NoteCount(g.notes, Calibration)
  {
    var note := Note(|g.notes|, lane, g.target + wait, stage, false);
    EmitExtends(lanes, g.notes, g.nextAvailable, g.target, note);
    EmitLocks(g.notes, g.nextAvailable, note);
    EmitStats(stage, g, wait, pos, lane);
    EmitFits(stage, g, wait, pos, lane);
  }

  lemma DropIsGood(lanes: nat, words: nat, stage: Stage, g: Gen, wait: nat)
    requires Good(lanes, words, stage, g) && 1 <= wait < StageEnd(stage) - g.target && g.pos < words
    ensures Good(lanes, words, stage, Drop(g, wait))
  {
  }

  lemma NewIdIsFresh(notes: seq<Note>)
    requires ConsecutiveIds(notes)
    ensures |notes| !in IdsOf(notes)
  {
  }

  datatype Outcome = Exhausted | Ended(end: Gen) | Next(next: Gen)

  /** One attempt of a stage: words run out, the stage ends, or it goes on. */
  function Attempt(lanes: nat, waitOf: Word -> int, words: seq<Word>, stage: Stage, g: Gen): (o: Outcome)
    requires Good(lanes, |words|, stage, g)
    ensures o.Ended? ==> Good(lanes, |words|, stage, o.end) && o.end.notes == g.notes
    ensures o.Next? ==> Good(lanes, |words|, stage, o.next) && o.next.pos > g.pos && o.next.target > g.target
    ensures o.Next? && stage == Scored ==> NoteCount(o.next.notes, Calibration) == NoteCount(g.notes, Calibration)
  {
    if g.pos == |words| then Exhausted
    else
      var wait := Wait(waitOf, words[g.pos]);
      if wait >= StageEnd(stage) - g.target then Ended(g.(pos := g.pos + 1))
      else
        var free := FreeLanes(lanes, g.nextAvailable, g.target + wait);
        if free == [] then
          DropIsGood(lanes, |words|, stage, g, wait);
          Next(Drop(g, wait))
        else
          match Uniform(words, g.pos + 1, |free|)
          case None => Exhausted
          case Some((pos, k)) =>
            assert free[k] in free;
            RoomForId(lanes, |words|, stage, g);
            EmitIsGood(lanes, |words|, stage, g, wait, pos, free[k]);
            Next(Emit(g, wait, pos, free[k], stage))
  }

  /** The attempts of one stage: None when the words run out. */
  function StageRun(lanes: nat, waitOf: Word -> int, words: seq<Word>, stage: Stage, g: Gen): (r: Option<Gen>)
    requires Good(lanes, |words|, stage, g)
    ensures r.Some? ==> Good(lanes, |words|, stage, r.value)
    ensures r.Some? && stage == Scored ==> NoteCount(r.value.notes, Calibration) == NoteCount(g.notes, Calibration)
    decreases |words| - g.pos
  {
    match Attempt(lanes, waitOf, words, stage, g)
    case Exhausted => None
    case Ended(end) => Some(end)
    case Next(next) => StageRun(lanes, waitOf, words, stage, next)
  }

  /** A note of the lane lies less than one lock before the target. */
  predicate Locked(notes: seq<Note>, lane: nat, target: int) {
    exists i :: 0 <= i < |notes| && notes[i].lane == lane && 0 < target - notes[i].target < LANE_LOCK
  }

  lemma OpensUnlocked(lanes: nat, words: nat, stage: Stage, g: Gen, target: int, lane: nat)
    requires Good(lanes, words, stage, g) && target > g.target && lane < MAX_LANES
    ensures target >= g.nextAvailable[lane] <==> !Locked(g.notes, lane, target)
  {
    LastTargetBounds(g.notes, lane);
    assert forall i :: 0 <= i < |g.notes| ==> g.notes[i].target <= g.target;
  }

  /** An attempt finds no free lane exactly when every lane is locked. */
  lemma DropsOnlyWhenLocked(lanes: nat, words: nat, stage: Stage, g: Gen, target: int)
    requires Good(lanes, words, stage, g) && target > g.target
    ensures FreeLanes(lanes, g.nextAvailable, target) == [] <==> forall l :: 0 <= l < lanes ==> Locked(g.notes, l, target)
  {
    var free := FreeLanes(lanes, g.nextAvailable, target);
    forall l | 0 <= l < lanes
      ensures l in free <==> !Locked(g.notes, l, target)
    {
      OpensUnlocked(lanes, words, stage, g, target, l);
    }
    if free != [] { assert free[0] in free; }
  }

  // ----- the whole chart ----------------------------------------------------

  function Begin(): Gen {
    Gen(0, CALIBRATION_START, seq(MAX_LANES, _ => 0), [], Stats(0, 0, 0))
  }

  lemma BeginIsGood(lanes: nat, words: nat)
    requires lanes <= MAX_LANES
    ensures Good(lanes, words, Calibration, Begin())
  {
  }

  function NextStage(g: Gen): Gen {
    g.(target := SCORED_START, stats := Stats(0, 0, 0))
  }

  lemma NextStageIsGood(lanes: nat, words: nat, g: Gen)
    requires Good(lanes, words, Calibration, g)
    ensures Good(lanes, words, Scored, NextStage(g))
  {
  }

  predicate GoodOutput(lanes: nat, chart: Chart) {
    && Generated(lanes, chart.notes) && StrictlyIncreasing(chart.notes)
    && |chart.notes| <= lanes * 25 * 55
    && chart.calibration.attempts == chart.calibration.emitted + chart.calibration.dropped < CALIBRATION_END - CALIBRATION_START
    && chart.scored.attempts == chart.scored.emitted + chart.scored.dropped < SCORED_END - SCORED_START
    && chart.calibration.emitted == NoteCount(chart.notes, Calibration)
    && chart.scored.emitted == NoteCount(chart.notes, Scored)
  }

  /** Both stages in turn, from one list of words.  Whatever the words and the wait
      function, a chart that is returned meets everything the engine and the replay
      tool demand, accounts for every attempt and fits the reserved storage. */
  function Generate(lanes: nat, waitOf: Word -> int, words: seq<Word>): (r: Option<Chart>)
    requires lanes <= MAX_LANES
    ensures r.Some? ==> GoodOutput(lanes, r.value)
  {
    BeginIsGood(lanes, |words|);
    match StageRun(lanes, waitOf, words, Calibration, Begin())
    case None => None
    case Some(first) =>
      NextStageIsGood(lanes, |words|, first);
      match StageRun(lanes, waitOf, words, Scored, NextStage(first))
      case None => None
      case Some(second) =>
        ChartFitsReserve(lanes, second.notes);
        Some(Chart(second.notes, first.stats, second.stats))
  }

  /** One turn of the generator's loop. */
  method MakeAttempt(lanes: nat, waitOf: Word -> int, words: seq<Word>, stage: Stage, g: Gen) returns (o: Outcome)
    requires Good(lanes, |words|, stage, g)
    ensures o == Attempt(lanes, waitOf, words, stage, g)
  {
    if g.pos == |words| { return Exhausted; }
    var wait := Wait(waitOf, words[g.pos]);
    if wait >= StageEnd(stage) - g.target { return Ended(g.(pos := g.pos + 1)); }
    RoomForId(lanes, |words|, stage, g);
    var free := CollectFree(lanes, g.nextAvailable, g.target + wait);
    if |free| == 0 { return Next(Drop(g, wait)); }
    var choice := UniformBelow(words, g.pos + 1, |free|);
    if choice.None? { return Exhausted; }
    var (pos, k) := choice.value;
    assert free[k] in free;
    o := Next(Emit(g, wait, pos, free[k], stage));
  }

  /** The generator's loop over one stage; every attempt moves the target on. */
  method GenerateStage(lanes: nat, waitOf: Word -> int, words: seq<Word>, stage: Stage, start: Gen) returns (r: Option<Gen>)
    requires Good(lanes, |words|, stage, start)
    ensures r == StageRun(lanes, waitOf, words, stage, start)
  {
    var g := start;
    while true
      invariant Good(lanes, |words|, stage, g)
      invariant StageRun(lanes, waitOf, words, stage, start) == StageRun(lanes, waitOf, words, stage, g)
      decreases StageEnd(stage) - g.target
    {
      var o := MakeAttempt(lanes, waitOf, words, stage, g);
      if o.Exhausted? { return None; }
      if o.Ended? { return Some(o.end); }
      g := o.next;
    }
  }

  method CollectFree(lanes: nat, nextAvailable: seq<int>, target: int) returns (free: seq<nat>)
    requires lanes <= |nextAvailable|
    ensures free == FreeLanes(lanes, nextAvailable, target)
  {
    free := [];
    for lane := 0 to lanes
      invariant free == FreeLanes(lane, nextAvailable, target)
    {
      if target >= nextAvailable[lane] { free := free + [lane]; }
    }
  }

  method GenerateChart(lanes: nat, density: real, waitOf: Word -> int, words: seq<Word>) returns (r: Option<Chart>)
    ensures r == if ConfigValid(lanes, density) then Generate(lanes, waitOf, words) else None
  {
    if !ConfigValid(lanes, density) { return None; }
    BeginIsGood(lanes, |words|);
    var first := GenerateStage(lanes, waitOf, words, Calibration, Begin());
    if first.None? { return None; }
    NextStageIsGood(lanes, |words|, first.value);
    var second := GenerateStage(lanes, waitOf, words, Scored, NextStage(first.value));
    if second.None? { return None; }
    r := Some(Chart(second.value.notes, first.value.stats, second.value.stats));
  }

  // ----- a generated chart is playable and replayable -----------------------

  /** One tap for each note, in its lane, at its target. */
  predicate Exact(taps: seq<Tap>, notes: seq<Note>) {
    |taps| == |notes| && forall i :: 0 <= i < |notes| ==> taps[i] == Tap(notes[i].target, notes[i].lane)
  }

  /** The chart with its first k notes consumed. */
  function PlayedTo(chart: seq<Note>, k: nat): seq<Note> {
    seq(|chart|, i requires 0 <= i < |chart| => chart[i].(consumed := i < k))
  }

  lemma ExactTapHits(lanes: nat, chart: seq<Note>, k: nat)
    requires ChartAccepted(lanes, chart) && k < |chart|
    ensures var tap := Tap(chart[k].target, chart[k].lane);
            && Judge(PlayedTo(chart, k), tap) == PerfectOn(chart[k])
            && NotesAfter(PlayedTo(chart, k), tap) == PlayedTo(chart, k + 1)
  {
    var now := PlayedTo(chart, k);
    StageNeverRejects(chart[k].target, chart[k].target, chart[k].stage);
    assert Eligible(now[k], chart[k].target, chart[k].lane);
    assert FirstEligible(now, chart[k].target, chart[k].lane) == Some(k);
  }

  function PerfectOn(note: Note): Feedback {
    Feedback(note.target, 0, note.id, note.lane, note.stage, Perfect)
  }

  lemma RemainingStep(chart: seq<Note>, taps: seq<Tap>, n: nat)
    requires 0 < n <= |taps|
    ensures Remaining(chart, taps[..n]) == NotesAfter(Remaining(chart, taps[..n - 1]), taps[n - 1])
  {
    ReplayExtends(chart, taps[..n - 1], taps[n - 1], 0);
    assert taps[..n] == taps[..n - 1] + [taps[n - 1]];
  }

  lemma {:induction false} ExactPlayConsumes(lanes: nat, chart: seq<Note>, taps: seq<Tap>, n: nat)
    requires ChartAccepted(lanes, chart) && Exact(taps, chart) && n <= |taps|
    ensures Remaining(chart, taps[..n]) == PlayedTo(chart, n)
  {
    if n == 0 {
      assert PlayedTo(chart, 0) == chart;
    } else {
      ExactPlayConsumes(lanes, chart, taps, n - 1);
      ExactTapHits(lanes, chart, n - 1);
      RemainingStep(chart, taps, n);
    }
  }

  /** Tapping every note exactly on time hits every note of an accepted chart. */
  lemma ExactPlayIsPerfect(lanes: nat, chart: seq<Note>, taps: seq<Tap>, j: nat)
    requires ChartAccepted(lanes, chart) && j < |chart| && Exact(taps, chart)
    ensures Replay(chart, taps)[j] == PerfectOn(chart[j])
  {
    ExactPlayConsumes(lanes, chart, taps, j);
    ExactTapHits(lanes, chart, j);
    ReplayPrefix(chart, taps, j);
  }

  /** End to end: whatever the random words, any run of any taps on the generated
      chart leaves evidence the replay tool accepts. */
  lemma GeneratedRunsReplay(lanes: nat, waitOf: Word -> int, words: seq<Word>, maxEvents: nat, taps: seq<Tap>)
    requires 2 <= lanes <= MAX_LANES && Generate(lanes, waitOf, words).Some?
    ensures var chart := Generate(lanes, waitOf, words).value;
            var v := Run(Initial(lanes, maxEvents, chart.notes), taps);
            EvidencePasses(lanes, NoteRowsOf(chart.notes), InputRowsOf(v.records),
                           TotalsOf(Tally(v.notes, v.records, Scored)), TotalsOf(Tally(v.notes, v.records, Calibration)),
                           Generation(chart.scored.attempts, chart.scored.emitted, chart.scored.dropped))
  {
    var chart := Generate(lanes, waitOf, words).value;
    InitialIsSound(lanes, maxEvents, chart.notes);
    RunIsSound(Initial(lanes, maxEvents, chart.notes), chart.notes, taps);
    ReplayIsComplete(Run(Initial(lanes, maxEvents, chart.notes), taps), chart.notes,
                     Generation(chart.scored.attempts, chart.scored.emitted, chart.scored.dropped));
  }
}
