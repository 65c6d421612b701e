/** The pixel agent's tracker and tap choice as pure functions.  Times are
    milliseconds on the client's own clock. */
module TrackerRules {
  import opened Options

  datatype Track = Track(id: nat, target: real, observations: nat, first: real, last: real, tapped: bool)

  datatype Lane = Lane(tracks: seq<Track>, next: nat)

  const THRESHOLD: real := 18.0
  const TOO_LATE: real := 8.0

  predicate Increasing(tracks: seq<Track>) {
    forall i, j :: 0 <= i < j < |tracks| ==> tracks[i].target < tracks[j].target
  }

  /** A note center at row y has 330 - y rows left at 330 rows a second. */
  function TargetOf(y: int, receipt: real): real {
    receipt + (330 - y) as real * 1000.0 / 330.0
  }

  predicate Near(a: real, b: real) {
    -THRESHOLD < a - b < THRESHOLD
  }

  function LowerBound(tracks: seq<Track>, time: real): (f: nat)
    ensures f <= |tracks|
    ensures forall j :: 0 <= j < f ==> tracks[j].target < time
    ensures f < |tracks| ==> tracks[f].target >= time
  {
    if tracks == [] || tracks[0].target >= time then 0 else 1 + LowerBound(tracks[1..], time)
  }

  /** The track an observation belongs to: the first at or after it if near, else
      the one before it if near. */
  function Match(tracks: seq<Track>, time: real): (m: Option<nat>)
    ensures m.Some? ==> m.value < |tracks| && Near(tracks[m.value].target, time)
  {
    var f := LowerBound(tracks, time);
    if f < |tracks| && Near(tracks[f].target, time) then Some(f)
    else if f > 0 && Near(tracks[f - 1].target, time) then Some(f - 1)
    else None
  }

  /** A running mean of the observations, one a frame. */
  function Averaged(t: Track, time: real, receipt: real): Track {
    if t.last == receipt then t
    else t.(target := t.target + (time - t.target) / (t.observations + 1) as real,
            observations := t.observations + 1, last := receipt)
  }

  predicate Ignored(time: real, receipt: real) {
    time < receipt - TOO_LATE
  }

  function Observe(lane: Lane, id: nat, time: real, receipt: real): Lane {
    var f, m := LowerBound(lane.tracks, time), Match(lane.tracks, time);
    if m.Some? then lane.(tracks := lane.tracks[m.value := Averaged(lane.tracks[m.value], time, receipt)])
    else if Ignored(time, receipt) then lane
    else Lane(lane.tracks[..f] + [Track(id, time, 1, receipt, receipt, false)] + lane.tracks[f..],
              if f < lane.next then f else lane.next)
  }

  // ----- choosing a tap ----------------------------------------------------------

  /** The cursor moved past tapped tracks. */
  function Skip(lane: Lane): nat
    decreases |lane.tracks| - lane.next
  {
    if lane.next < |lane.tracks| && lane.tracks[lane.next].tapped then Skip(lane.(next := lane.next + 1)) else lane.next
  }

  /** The cursor stops at the first untapped track at or after it. */
  lemma {:induction false} SkipStops(lane: Lane)
    ensures var next := Skip(lane);
            && lane.next <= next && (next == lane.next || next <= |lane.tracks|)
            && (forall i :: lane.next <= i < next && i < |lane.tracks| ==> lane.tracks[i].tapped)
            && (next < |lane.tracks| ==> !lane.tracks[next].tapped)
    decreases |lane.tracks| - lane.next
  {
    if lane.next < |lane.tracks| && lane.tracks[lane.next].tapped {
      SkipStops(lane.(next := lane.next + 1));
    }
  }

  datatype Pick = Pick(lane: nat, index: nat)

  /** The scan over the first n lanes: the earliest first-untapped track so far. */
  function Scan(lanes: seq<Lane>, n: nat): (p: Option<Pick>)
    requires n <= |lanes|
    ensures p.Some? ==> p.value.lane < n && p.value.index < |lanes[p.value.lane].tracks|
    ensures p.Some? ==> p.value.index == Skip(lanes[p.value.lane])
  {
    if n == 0 then None
    else
      var best, l := Scan(lanes, n - 1), lanes[n - 1];
      var next := Skip(l);
      if next < |l.tracks| && (best.None? || l.tracks[next].target < TargetAt(lanes, best.value)) then Some(Pick(n - 1, next))
      else best
  }

  function TargetAt(lanes: seq<Lane>, p: Pick): real
    requires p.lane < |lanes| && p.index < |lanes[p.lane].tracks|
  {
    lanes[p.lane].tracks[p.index].target
  }

  /** Sorted, every mean over at least one observation, and all tapped before the cursor. */
  predicate LaneOk(lane: Lane) {
    && Increasing(lane.tracks) && lane.next <= |lane.tracks|
    && (forall i :: 0 <= i < |lane.tracks| ==> lane.tracks[i].observations >= 1)
    && (forall i :: 0 <= i < lane.next ==> lane.tracks[i].tapped)
  }

  // ----- what observing keeps ------------------------------------------------------

  lemma SameSign(d: real, k: real)
    requires k > 0.0
    ensures d > 0.0 <==> d * k > 0.0
    ensures d < 0.0 <==> d * k < 0.0
  {
  }

  /** A running mean over n + 1 values stays strictly between, short of the new value. */
  lemma MeanIsBetween(t: real, x: real, n: nat)
    requires n >= 1
    ensures var m := t + (x - t) / (n + 1) as real;
            (x < t ==> x < m < t) && (x > t ==> t < m < x) && (x == t ==> m == t)
  {
    var k := (n + 1) as real;
    var d := (x - t) / k;
    assert d * k == x - t;
    SameSign(d, k);
    SameSign(d, k - 1.0);
    assert (x - t) - d == d * (k - 1.0);
  }

  lemma MeanTimesCount(t: real, x: real, n: nat)
    ensures (t + (x - t) / (n + 1) as real) * (n + 1) as real == t * n as real + x
  {
    var k := (n + 1) as real;
    var d := (x - t) / k;
    assert d * k == x - t;
    assert (t + d) * k == t * k + d * k;
    assert t * k == t * n as real + t;
  }

  /** The sum of a track's observations, if its target is their mean. */
  function Sum(t: Track): real {
    t.target * t.observations as real
  }

  lemma AveragedSum(t: Track, time: real, receipt: real)
    requires t.last != receipt
    ensures var u := Averaged(t, time, receipt);
            u.observations == t.observations + 1 && u.last == receipt && Sum(u) == Sum(t) + time
  {
    MeanTimesCount(t.target, time, t.observations);
  }

  /** A track after several frames, oldest first: pairs of target and receipt time. */
  function Follow(t: Track, frames: seq<(real, real)>): Track {
    if frames == [] then t
    else var n := |frames| - 1; Averaged(Follow(t, frames[..n]), frames[n].0, frames[n].1)
  }

  function Total(frames: seq<(real, real)>): real {
    if frames == [] then 0.0 else Total(frames[..|frames| - 1]) + frames[|frames| - 1].0
  }

  /** The estimate is the plain mean of all observations from distinct frames: the
      incremental update loses and double-counts none. */
  lemma {:induction false} EstimateIsMean(t: Track, frames: seq<(real, real)>)
    requires frames != [] ==> frames[0].1 != t.last
    requires forall i :: 0 < i < |frames| ==> frames[i].1 != frames[i - 1].1
    ensures var u := Follow(t, frames);
            && u.observations == t.observations + |frames|
            && u.last == (if frames == [] then t.last else frames[|frames| - 1].1)
            && Sum(u) == Sum(t) + Total(frames)
  {
    if frames != [] {
      var n := |frames| - 1;
      EstimateIsMean(t, frames[..n]);
      AveragedSum(Follow(t, frames[..n]), frames[n].0, frames[n].1);
    }
  }

  lemma ReplaceKeepsOrder(tracks: seq<Track>, m: nat, t: Track)
    requires Increasing(tracks) && m < |tracks|
    requires m > 0 ==> tracks[m - 1].target < t.target
    requires m + 1 < |tracks| ==> t.target < tracks[m + 1].target
    ensures Increasing(tracks[m := t])
  {
    var after := tracks[m := t];
    forall i, j | 0 <= i < j < |tracks|
      ensures after[i].target < after[j].target
    {
      if j == m && i < m - 1 { assert tracks[i].target < tracks[m - 1].target; }
      if i == m && m + 1 < j { assert tracks[m + 1].target < tracks[j].target; }
    }
  }

  lemma AverageKeepsLane(lane: Lane, time: real, receipt: real)
    requires LaneOk(lane) && Match(lane.tracks, time).Some?
    ensures LaneOk(Observe(lane, 0, time, receipt))
  {
    var m := Match(lane.tracks, time).value;
    var t := lane.tracks[m];
    MeanIsBetween(t.target, time, t.observations);
    assert m + 1 < |lane.tracks| ==> t.target < lane.tracks[m + 1].target;
    assert m > 0 ==> lane.tracks[m - 1].target < t.target;
    ReplaceKeepsOrder(lane.tracks, m, Averaged(t, time, receipt));
  }

  lemma InsertKeepsOrder(tracks: seq<Track>, f: nat, t: Track)
    requires Increasing(tracks) && f <= |tracks|
    requires f > 0 ==> tracks[f - 1].target < t.target
    requires f < |tracks| ==> t.target < tracks[f].target
    ensures Increasing(tracks[..f] + [t] + tracks[f..])
  {
    forall i | 0 <= i < |tracks|
      ensures if i < f then tracks[i].target < t.target else t.target < tracks[i].target
    {
      if i < f - 1 { assert tracks[i].target < tracks[f - 1].target; }
      if f < i { assert tracks[f].target < tracks[i].target; }
    }
  }

  lemma InsertKeepsLane(lane: Lane, id: nat, time: real, receipt: real)
    requires LaneOk(lane) && Match(lane.tracks, time).None? && !Ignored(time, receipt)
    ensures LaneOk(Observe(lane, id, time, receipt))
  {
    var f := LowerBound(lane.tracks, time);
    assert f < |lane.tracks| ==> time < lane.tracks[f].target;
    InsertKeepsOrder(lane.tracks, f, Track(id, time, 1, receipt, receipt, false));
  }

  /** Tracks stay strictly sorted and the cursor stays behind tapped tracks only,
      whatever is observed. */
  lemma ObserveKeepsLane(lane: Lane, id: nat, time: real, receipt: real)
    requires LaneOk(lane)
    ensures LaneOk(Observe(lane, id, time, receipt))
  {
    if Match(lane.tracks, time).Some? {
      AverageKeepsLane(lane, time, receipt);
    } else if !Ignored(time, receipt) {
      InsertKeepsLane(lane, id, time, receipt);
    }
  }

  /** A track this far from the observed time or less is taken for the same note. */
  predicate Close(t: Track, time: real) {
    -18.0 < t.target - time < 18.0
  }

  /** The observation refined one track, and touched nothing else. */
  predicate Refined(lane: Lane, after: Lane, j: nat, time: real, receipt: real) {
    j < |lane.tracks| && Close(lane.tracks[j], time) && after == lane.(tracks := lane.tracks[j := Averaged(lane.tracks[j], time, receipt)])
  }

  /** The observation made a track of its own, and touched no other; the cursor moves back
      to it if need be. */
  predicate NewlyTracked(lane: Lane, after: Lane, f: nat, id: nat, time: real, receipt: real) {
    && f <= |lane.tracks| && after.tracks == lane.tracks[..f] + [Track(id, time, 1, receipt, receipt, false)] + lane.tracks[f..]
    && after.next == (if f < lane.next then f else lane.next)
  }

  /** An observation refines one track exactly when some track is within 18 ms of it;
      otherwise it makes one, unless it is more than 8 ms late, and then changes nothing. */
  lemma ObserveExactly(lane: Lane, id: nat, time: real, receipt: real) returns (j: nat)
    requires LaneOk(lane)
    ensures var after := Observe(lane, id, time, receipt);
            if exists i :: 0 <= i < |lane.tracks| && Close(lane.tracks[i], time) then Refined(lane, after, j, time, receipt)
            else if time < receipt - 8.0 then after == lane
            else NewlyTracked(lane, after, j, id, time, receipt)
  {
    var f, m := LowerBound(lane.tracks, time), Match(lane.tracks, time);
    j := if m.Some? then m.value else f;
    forall i | 0 <= i < |lane.tracks| && Close(lane.tracks[i], time)
      ensures m.Some?
    {
      if i < f - 1 { assert lane.tracks[i].target < lane.tracks[f - 1].target; }
      if f < i { assert lane.tracks[f].target < lane.tracks[i].target; }
    }
  }

  /** The scan finds the earliest of all untapped tracks, the lowest lane on a tie,
      and finds none only if none is untapped. */
  lemma {:induction false} ScanFindsEarliest(lanes: seq<Lane>, n: nat)
    requires n <= |lanes| && forall l :: 0 <= l < |lanes| ==> LaneOk(lanes[l])
    ensures forall l, i :: 0 <= l < n && 0 <= i < |lanes[l].tracks| && !lanes[l].tracks[i].tapped ==>
              Scan(lanes, n).Some? && TargetAt(lanes, Scan(lanes, n).value) <= lanes[l].tracks[i].target
    ensures Scan(lanes, n).Some? ==>
              forall l, i :: 0 <= l < Scan(lanes, n).value.lane && 0 <= i < |lanes[l].tracks| && !lanes[l].tracks[i].tapped ==>
                TargetAt(lanes, Scan(lanes, n).value) < lanes[l].tracks[i].target
  {
    if n > 0 {
      ScanFindsEarliest(lanes, n - 1);
      var l := lanes[n - 1];
      SkipStops(l);
      assert forall i :: 0 <= i < |l.tracks| && !l.tracks[i].tapped ==> Skip(l) <= i;
    }
  }
}
