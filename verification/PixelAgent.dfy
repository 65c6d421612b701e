/** The state the pixel agent's two threads share, updated in place. */
module PixelAgent {
  import opened Options
  import opened TrackerRules
  import opened AgentRules

  class Shared {
    const tracks: array<seq<Track>>
    const next: array<nat>
    var nextId: nat
    var log: seq<nat>

    ghost predicate Valid()
    {
      tracks.Length == next.Length
    }

    ghost function At(l: nat): Lane
      requires Valid() && l < tracks.Length
      reads tracks, next
    {
      Lane(tracks[l], next[l])
    }

    ghost function Lanes(n: nat): seq<Lane>
      requires Valid() && n <= tracks.Length
      reads tracks, next
    {
      seq(n, l requires 0 <= l < n reads tracks, next => At(l))
    }

    constructor (lanes: nat)
      ensures Valid() && fresh(tracks) && fresh(next) && tracks.Length == lanes && nextId == 0 && log == []
      ensures forall l :: 0 <= l < lanes ==> At(l) == Lane([], 0)
    {
      tracks := new seq<Track>[lanes](_ => []);
      next := new nat[lanes](_ => 0);
      nextId := 0;
      log := [];
    }

    /** Binary search for the first track not before the time. */
    method Search(sorted: seq<Track>, time: real) returns (f: nat)
      requires Increasing(sorted)
      ensures f == LowerBound(sorted, time)
    {
      var low, high := 0, |sorted|;
      while low < high
        invariant 0 <= low <= LowerBound(sorted, time) <= high <= |sorted|
      {
        var mid := (low + high) / 2;
        if sorted[mid].target < time { low := mid + 1; } else { high := mid; }
      }
      f := low;
    }

    /** The near track, or where a new one goes. */
    method Locate(sorted: seq<Track>, time: real) returns (near: bool, f: nat)
      requires Increasing(sorted)
      ensures Match(sorted, time) == if near then Some(f) else None
      ensures !near ==> f == LowerBound(sorted, time)
    {
      f := Search(sorted, time);
      near := f < |sorted| && Near(sorted[f].target, time);
      if !near && f != 0 && Near(sorted[f - 1].target, time) {
        near, f := true, f - 1;
      }
    }

    method Insert(lane: nat, f: nat, track: Track)
      requires Valid() && lane < tracks.Length && f <= |tracks[lane]|
      modifies tracks, next
      ensures Valid() && At(lane) == Lane(old(tracks[lane])[..f] + [track] + old(tracks[lane])[f..],
                                          if f < old(next[lane]) then f else old(next[lane]))
      ensures forall l :: 0 <= l < tracks.Length && l != lane ==> At(l) == old(At(l))
    {
      tracks[lane] := tracks[lane][..f] + [track] + tracks[lane][f..];
      if f < next[lane] { next[lane] := f; }
    }

    method Refine(lane: nat, f: nat, target: real, receipt: real)
      requires Valid() && lane < tracks.Length && f < |tracks[lane]|
      modifies tracks
      ensures Valid() && At(lane) == old(At(lane)).(tracks := old(tracks[lane])[f := Averaged(old(tracks[lane])[f], target, receipt)])
      ensures forall l :: 0 <= l < tracks.Length && l != lane ==> At(l) == old(At(l))
    {
      var t := tracks[lane][f];
      if t.last != receipt {
        t := t.(target := t.target + (target - t.target) / (t.observations + 1) as real);
        t := t.(observations := t.observations + 1, last := receipt);
        tracks[lane] := tracks[lane][f := t];
      }
    }

    method Observe(lane: nat, centerY: int, receipt: real)
      requires Valid() && lane < tracks.Length && LaneOk(At(lane))
      modifies this`nextId, tracks, next
      ensures Valid() && At(lane) == TrackerRules.Observe(old(At(lane)), old(nextId), TargetOf(centerY, receipt), receipt)
      ensures nextId == old(nextId) + |tracks[lane]| - |old(tracks[lane])| && LaneOk(At(lane))
      ensures forall l :: 0 <= l < tracks.Length && l != lane ==> At(l) == old(At(l))
    {
      var target := TargetOf(centerY, receipt);
      ObserveKeepsLane(At(lane), nextId, target, receipt);
      var near, f := Locate(tracks[lane], target);
      if near {
        Refine(lane, f, target, receipt);
      } else if target >= receipt - TOO_LATE {
        Insert(lane, f, Track(nextId, target, 1, receipt, receipt, false));
        nextId := nextId + 1;
      }
    }

    /** Observing is the sight step of the run rules, for the lanes in play. */
    twostate lemma ObservedIsSight(lanes: nat, lane: nat, time: real, receipt: real)
      requires Valid() && lane < lanes <= tracks.Length && log == old(log)
      requires At(lane) == TrackerRules.Observe(old(At(lane)), old(nextId), time, receipt)
      requires nextId == old(nextId) + |tracks[lane]| - |old(tracks[lane])|
      requires forall l :: 0 <= l < tracks.Length && l != lane ==> At(l) == old(At(l))
      ensures View(lanes) == SightStep(old(View(lanes)), lane, time, receipt)
    {
      assert Lanes(lanes) == SightStep(old(View(lanes)), lane, time, receipt).lanes;
    }

    /** Moves one lane's cursor past tapped tracks. */
    method Advance(lane: nat)
      requires Valid() && lane < tracks.Length
      modifies next
      ensures next[lane] == Skip(old(At(lane)))
      ensures forall l :: 0 <= l < next.Length && l != lane ==> next[l] == old(next[l])
    {
      while next[lane] < |tracks[lane]| && tracks[lane][next[lane]].tapped
        invariant Skip(At(lane)) == Skip(old(At(lane)))
        invariant forall l :: 0 <= l < next.Length && l != lane ==> next[l] == old(next[l])
        decreases |tracks[lane]| - next[lane]
      {
        next[lane] := next[lane] + 1;
      }
    }

    /** One lane of the scan: its first untapped track, if earlier than the best so far. */
    method Consider(lane: nat, pick: Option<Pick>, best: real) returns (newPick: Option<Pick>, newBest: real)
      requires Valid() && lane < tracks.Length
      modifies next
      ensures next[lane] == Skip(old(At(lane)))
      ensures forall l :: 0 <= l < next.Length && l != lane ==> next[l] == old(next[l])
      ensures var n, ts := Skip(old(At(lane))), tracks[lane];
              if n < |ts| && (pick.None? || ts[n].target < best) then newPick == Some(Pick(lane, n)) && newBest == ts[n].target
              else newPick == pick && newBest == best
    {
      Advance(lane);
      newPick, newBest := pick, best;
      var n := next[lane];
      if n < |tracks[lane]| && (pick.None? || tracks[lane][n].target < best) {
        newPick, newBest := Some(Pick(lane, n)), tracks[lane][n].target;
      }
    }

    /** The track to tap next: the earliest untapped one, the lowest lane on a tie. */
    method Choose(lanes: nat) returns (pick: Option<Pick>)
      requires Valid() && lanes <= tracks.Length
      modifies next
      ensures pick == Scan(old(Lanes(lanes)), lanes)
      ensures forall l :: 0 <= l < lanes ==> next[l] == Skip(old(At(l)))
      ensures forall l :: lanes <= l < next.Length ==> next[l] == old(next[l])
    {
      ghost var was := Lanes(lanes);
      pick := None;
      var best, lane := 0.0, 0;
      while lane < lanes
        invariant 0 <= lane <= lanes && pick == Scan(was, lane)
        invariant pick.Some? ==> best == TargetAt(was, pick.value)
        invariant forall l :: 0 <= l < lane ==> next[l] == Skip(was[l])
        invariant forall l :: lane <= l < next.Length ==> next[l] == old(next[l])
      {
        assert At(lane) == was[lane];
        pick, best := Consider(lane, pick, best);
        lane := lane + 1;
      }
    }

    method MarkTapped(pick: Pick) returns (id: nat)
      requires Valid() && pick.lane < tracks.Length && pick.index < |tracks[pick.lane]|
      modifies tracks
      ensures id == old(tracks[pick.lane])[pick.index].id
      ensures tracks[pick.lane] == old(tracks[pick.lane])[pick.index := old(tracks[pick.lane])[pick.index].(tapped := true)]
      ensures forall l :: 0 <= l < tracks.Length && l != pick.lane ==> tracks[l] == old(tracks[l])
    {
      id := tracks[pick.lane][pick.index].id;
      tracks[pick.lane] := tracks[pick.lane][pick.index := tracks[pick.lane][pick.index].(tapped := true)];
    }

    /** The lanes in play as the run rules see them. */
    ghost function View(n: nat): Agent
      requires Valid() && n <= tracks.Length
      reads this, tracks, next
    {
      Agent(Lanes(n), nextId, log)
    }

    /** One turn of the scheduler: chooses, and taps the choice if it is due. */
    method TapNext(lanes: nat, due: bool) returns (tapped: Option<nat>)
      requires Valid() && lanes <= tracks.Length
      modifies this`log, tracks, next
      ensures View(lanes) == ChooseStep(old(View(lanes)), due)
      ensures tapped.Some? ==> log == old(log) + [tapped.value]
    {
      ghost var was := View(lanes);
      var pick := Choose(lanes);
      assert Lanes(lanes) == Advanced(was.lanes);
      tapped := None;
      if pick.Some? && due {
        var id := MarkTapped(pick.value);
        tapped := Some(id);
        log := log + [id];
        assert Lanes(lanes) == ChooseStep(was, due).lanes;
      }
    }
  }
}
