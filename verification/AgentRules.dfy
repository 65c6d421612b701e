/** Whole runs of the pixel agent: observations and taps in any order. */
module AgentRules {
  import opened Options
  import opened TrackerRules

  /** log lists the ids of the tracks tapped, in order. */
  datatype Agent = Agent(lanes: seq<Lane>, nextId: nat, log: seq<nat>)

  datatype Step = Sight(lane: nat, time: real, receipt: real) | Choose(due: bool)

  function Advanced(lanes: seq<Lane>): seq<Lane> {
    seq(|lanes|, l requires 0 <= l < |lanes| => lanes[l].(next := Skip(lanes[l])))
  }

  function SightStep(a: Agent, lane: nat, time: real, receipt: real): Agent
    requires lane < |a.lanes|
  {
    var after := Observe(a.lanes[lane], a.nextId, time, receipt);
    a.(lanes := a.lanes[lane := after], nextId := a.nextId + |after.tracks| - |a.lanes[lane].tracks|)
  }

  /** The chosen track, if its deadline is close enough to act on now, is tapped. */
  function ChooseStep(a: Agent, due: bool): Agent {
    var pick, lanes := Scan(a.lanes, |a.lanes|), Advanced(a.lanes);
    if pick.None? || !due then a.(lanes := lanes)
    else
      var p := pick.value;
      var t := lanes[p.lane].tracks[p.index];
      a.(lanes := lanes[p.lane := lanes[p.lane].(tracks := lanes[p.lane].tracks[p.index := t.(tapped := true)])],
         log := a.log + [t.id])
  }

  function Apply(a: Agent, step: Step): Agent {
    match step
    case Sight(lane, time, receipt) => if lane < |a.lanes| then SightStep(a, lane, time, receipt) else a
    case Choose(due) => ChooseStep(a, due)
  }

  function Run(a: Agent, steps: seq<Step>): Agent {
    if steps == [] then a else Apply(Run(a, steps[..|steps| - 1]), steps[|steps| - 1])
  }

  function Start(lanes: nat): Agent {
    Agent(seq(lanes, _ => Lane([], 0)), 0, [])
  }

  // ----- the invariant ------------------------------------------------------------

  predicate At(lanes: seq<Lane>, l: int, i: int) {
    0 <= l < |lanes| && 0 <= i < |lanes[l].tracks|
  }

  function TrackAt(lanes: seq<Lane>, l: int, i: int): Track
    requires At(lanes, l, i)
  {
    lanes[l].tracks[i]
  }

  ghost predicate IdsDistinct(lanes: seq<Lane>) {
    forall l, i, m, j :: At(lanes, l, i) && At(lanes, m, j) && TrackAt(lanes, l, i).id == TrackAt(lanes, m, j).id ==>
      l == m && i == j
  }

  /** The log holds exactly the tapped tracks' ids, each once. */
  ghost predicate LogOk(a: Agent) {
    && (forall l, i :: At(a.lanes, l, i) ==>
          TrackAt(a.lanes, l, i).id < a.nextId && (TrackAt(a.lanes, l, i).tapped <==> TrackAt(a.lanes, l, i).id in a.log))
    && (forall x :: 0 <= x < |a.log| ==> a.log[x] < a.nextId)
    && (forall x, y :: 0 <= x < y < |a.log| ==> a.log[x] != a.log[y])
  }

  predicate LanesOk(lanes: seq<Lane>) {
    forall l :: 0 <= l < |lanes| ==> LaneOk(lanes[l])
  }

  ghost predicate AgentOk(a: Agent) {
    LanesOk(a.lanes) && IdsDistinct(a.lanes) && LogOk(a)
  }

  /** Every track after an observation is one from before, or the new one. */
  lemma TracksAfter(lane: Lane, id: nat, time: real, receipt: real, j: nat) returns (origin: int)
    requires j < |Observe(lane, id, time, receipt).tracks|
    ensures var after := Observe(lane, id, time, receipt);
            && |after.tracks| - |lane.tracks| in {0, 1}
            && (if |after.tracks| == |lane.tracks| then origin == j
                else var f := LowerBound(lane.tracks, time); if j == f then origin == -1 else origin == if j < f then j else j - 1)
    ensures -1 <= origin < |lane.tracks|
    ensures var t := Observe(lane, id, time, receipt).tracks[j];
            if origin < 0 then t.id == id && !t.tapped
            else t.id == lane.tracks[origin].id && t.tapped == lane.tracks[origin].tapped
  {
    var f := LowerBound(lane.tracks, time);
    if Match(lane.tracks, time).Some? || Ignored(time, receipt) || j < f {
      origin := j;
    } else {
      origin := if j == f then -1 else j - 1;
    }
  }

  lemma SightKeeps(a: Agent, lane: nat, time: real, receipt: real)
    requires AgentOk(a) && lane < |a.lanes|
    ensures AgentOk(SightStep(a, lane, time, receipt))
  {
    var b := SightStep(a, lane, time, receipt);
    ObserveKeepsLane(a.lanes[lane], a.nextId, time, receipt);
    forall l, i | At(b.lanes, l, i)
      ensures TrackAt(b.lanes, l, i).id < b.nextId
      ensures TrackAt(b.lanes, l, i).tapped <==> TrackAt(b.lanes, l, i).id in b.log
    {
      if l == lane {
        var o := TracksAfter(a.lanes[l], a.nextId, time, receipt, i);
        if o >= 0 { assert At(a.lanes, l, o); }
      } else {
        assert At(a.lanes, l, i);
      }
    }
    SightKeepsIds(a, lane, time, receipt);
  }

  /** Where a track was before the observation: itself, shifted, or nowhere. */
  lemma Origin(a: Agent, lane: nat, time: real, receipt: real, l: int, i: int) returns (o: int)
    requires LogOk(a) && lane < |a.lanes| && At(SightStep(a, lane, time, receipt).lanes, l, i)
    ensures var t := TrackAt(SightStep(a, lane, time, receipt).lanes, l, i);
            if At(a.lanes, l, o) then t.id == TrackAt(a.lanes, l, o).id < a.nextId else t.id == a.nextId
    ensures if l == lane && |SightStep(a, lane, time, receipt).lanes[lane].tracks| > |a.lanes[lane].tracks|
            then var f := LowerBound(a.lanes[lane].tracks, time); (i == f <==> o == -1) && (i < f ==> o == i) && (i > f ==> o == i - 1)
            else o == i
    ensures !At(a.lanes, l, o) ==> l == lane && o == -1
  {
    if l == lane {
      o := TracksAfter(a.lanes[l], a.nextId, time, receipt, i);
    } else {
      o := i;
    }
    assert At(a.lanes, l, o) || (o == -1 && l == lane);
  }

  lemma SightKeepsIds(a: Agent, lane: nat, time: real, receipt: real)
    requires AgentOk(a) && lane < |a.lanes|
    ensures IdsDistinct(SightStep(a, lane, time, receipt).lanes)
  {
    var b := SightStep(a, lane, time, receipt);
    forall l, i, m, j | At(b.lanes, l, i) && At(b.lanes, m, j) && TrackAt(b.lanes, l, i).id == TrackAt(b.lanes, m, j).id
      ensures l == m && i == j
    {
      var o := Origin(a, lane, time, receipt, l, i);
      var p := Origin(a, lane, time, receipt, m, j);
    }
  }

  lemma AdvancedKeeps(a: Agent)
    requires AgentOk(a)
    ensures AgentOk(a.(lanes := Advanced(a.lanes)))
  {
    var lanes := Advanced(a.lanes);
    assert forall l, i :: At(lanes, l, i) <==> At(a.lanes, l, i);
    assert forall l, i :: At(lanes, l, i) ==> TrackAt(lanes, l, i) == TrackAt(a.lanes, l, i);
    forall l | 0 <= l < |lanes|
      ensures LaneOk(lanes[l])
    {
      SkipStops(a.lanes[l]);
      assert LaneOk(a.lanes[l]);
    }
  }

  lemma MarkKeeps(a: Agent, p: Pick)
    requires AgentOk(a) && At(a.lanes, p.lane, p.index) && !TrackAt(a.lanes, p.lane, p.index).tapped
    ensures var t := TrackAt(a.lanes, p.lane, p.index);
            AgentOk(a.(lanes := a.lanes[p.lane := a.lanes[p.lane].(tracks := a.lanes[p.lane].tracks[p.index := t.(tapped := true)])],
                       log := a.log + [t.id]))
  {
    var t := TrackAt(a.lanes, p.lane, p.index);
    var lane := a.lanes[p.lane].(tracks := a.lanes[p.lane].tracks[p.index := t.(tapped := true)]);
    var b := a.(lanes := a.lanes[p.lane := lane], log := a.log + [t.id]);
    assert forall l, i :: At(b.lanes, l, i) <==> At(a.lanes, l, i);
    assert forall l, i :: At(b.lanes, l, i) ==> TrackAt(b.lanes, l, i).id == TrackAt(a.lanes, l, i).id;
    assert LaneOk(a.lanes[p.lane]);
    assert LaneOk(lane);
  }

  lemma ChooseKeeps(a: Agent, due: bool)
    requires AgentOk(a)
    ensures AgentOk(ChooseStep(a, due))
  {
    AdvancedKeeps(a);
    var pick := Scan(a.lanes, |a.lanes|);
    if pick.Some? && due {
      SkipStops(a.lanes[pick.value.lane]);
      MarkKeeps(a.(lanes := Advanced(a.lanes)), pick.value);
    }
  }

  lemma {:induction false} RunKeeps(a: Agent, steps: seq<Step>)
    requires AgentOk(a)
    ensures AgentOk(Run(a, steps))
  {
    if steps != [] {
      var n := |steps| - 1;
      RunKeeps(a, steps[..n]);
      var b := Run(a, steps[..n]);
      match steps[n]
      case Sight(lane, time, receipt) => if lane < |b.lanes| { SightKeeps(b, lane, time, receipt); }
      case Choose(due) => ChooseKeeps(b, due);
    }
  }

  /** No track is ever tapped twice, over any run. */
  lemma TappedOnce(lanes: nat, steps: seq<Step>, x: nat, y: nat)
    requires x < y < |Run(Start(lanes), steps).log|
    ensures Run(Start(lanes), steps).log[x] != Run(Start(lanes), steps).log[y]
  {
    RunKeeps(Start(lanes), steps);
  }

  /** At every point of every run the track chosen is the earliest of all untapped
      tracks of all lanes, and one is chosen whenever one is untapped. */
  lemma EarliestIsChosen(lanes: nat, steps: seq<Step>, l: nat, i: nat)
    requires At(Run(Start(lanes), steps).lanes, l, i) && !TrackAt(Run(Start(lanes), steps).lanes, l, i).tapped
    ensures var a := Run(Start(lanes), steps);
            var pick := Scan(a.lanes, |a.lanes|);
            && pick.Some? && At(a.lanes, pick.value.lane, pick.value.index)
            && !TrackAt(a.lanes, pick.value.lane, pick.value.index).tapped
            && TargetAt(a.lanes, pick.value) <= TrackAt(a.lanes, l, i).target
            && (l < pick.value.lane ==> TargetAt(a.lanes, pick.value) < TrackAt(a.lanes, l, i).target)
  {
    var a := Run(Start(lanes), steps);
    RunKeeps(Start(lanes), steps);
    ScanFindsEarliest(a.lanes, |a.lanes|);
    SkipStops(a.lanes[Scan(a.lanes, |a.lanes|).value.lane]);
  }

  /** No untapped track is earlier; of those as early, none is on a lower lane. */
  ghost predicate EarliestUntapped(lanes: seq<Lane>, l: nat, i: nat) {
    && At(lanes, l, i) && !TrackAt(lanes, l, i).tapped
    && (forall m, j :: At(lanes, m, j) && !TrackAt(lanes, m, j).tapped ==>
          TrackAt(lanes, l, i).target <= TrackAt(lanes, m, j).target && (TrackAt(lanes, l, i).target == TrackAt(lanes, m, j).target ==> l <= m))
  }

  ghost predicate SomeUntapped(lanes: seq<Lane>) {
    exists l, i :: At(lanes, l, i) && !TrackAt(lanes, l, i).tapped
  }

  /** The same tracks, but for one that is now tapped. */
  ghost predicate TappedJust(before: seq<Lane>, after: seq<Lane>, l: nat, i: nat) {
    forall m, j :: (At(after, m, j) <==> At(before, m, j)) &&
      (At(before, m, j) ==>
         TrackAt(after, m, j) == if m == l && j == i then TrackAt(before, m, j).(tapped := true) else TrackAt(before, m, j))
  }

  ghost predicate SameTracks(before: seq<Lane>, after: seq<Lane>) {
    forall m, j :: (At(after, m, j) <==> At(before, m, j)) && (At(before, m, j) ==> TrackAt(after, m, j) == TrackAt(before, m, j))
  }

  lemma PickIsEarliest(a: Agent)
    requires AgentOk(a)
    ensures var pick := Scan(a.lanes, |a.lanes|);
            if SomeUntapped(a.lanes) then pick.Some? && EarliestUntapped(a.lanes, pick.value.lane, pick.value.index) else pick.None?
  {
    var pick := Scan(a.lanes, |a.lanes|);
    ScanFindsEarliest(a.lanes, |a.lanes|);
    if pick.Some? {
      SkipStops(a.lanes[pick.value.lane]);
      assert At(a.lanes, pick.value.lane, pick.value.index) && !TrackAt(a.lanes, pick.value.lane, pick.value.index).tapped;
    }
    if SomeUntapped(a.lanes) {
      var l, i :| At(a.lanes, l, i) && !TrackAt(a.lanes, l, i).tapped;
      assert !a.lanes[l].tracks[i].tapped;
    }
    forall m, j | At(a.lanes, m, j) && !TrackAt(a.lanes, m, j).tapped
      ensures pick.Some? && TargetAt(a.lanes, pick.value) <= TrackAt(a.lanes, m, j).target
      ensures TargetAt(a.lanes, pick.value) == TrackAt(a.lanes, m, j).target ==> pick.value.lane <= m
    {
      assert !a.lanes[m].tracks[j].tapped;
    }
  }

  lemma ChooseStepTaps(a: Agent)
    requires Scan(a.lanes, |a.lanes|).Some?
    ensures var p, b := Scan(a.lanes, |a.lanes|).value, ChooseStep(a, true);
            b.log == a.log + [TrackAt(a.lanes, p.lane, p.index).id] && TappedJust(a.lanes, b.lanes, p.lane, p.index)
  {
  }

  /** A turn of the scheduler, at any point of any run: if it is due and some track is
      untapped, it taps the earliest of all, once, and records its id; otherwise it taps
      nothing. */
  lemma TurnTapsEarliest(lanes: nat, steps: seq<Step>, due: bool)
    ensures var a := Run(Start(lanes), steps);
            var b := ChooseStep(a, due);
            if due && SomeUntapped(a.lanes) then
              exists l: nat, i: nat :: EarliestUntapped(a.lanes, l, i) && TappedJust(a.lanes, b.lanes, l, i) && b.log == a.log + [TrackAt(a.lanes, l, i).id]
            else b.log == a.log && SameTracks(a.lanes, b.lanes)
  {
    var a := Run(Start(lanes), steps);
    RunKeeps(Start(lanes), steps);
    PickIsEarliest(a);
    if due && SomeUntapped(a.lanes) {
      var p := Scan(a.lanes, |a.lanes|).value;
      ChooseStepTaps(a);
      assert EarliestUntapped(a.lanes, p.lane, p.index);
    }
  }
}
