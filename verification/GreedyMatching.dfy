/** The naive rule against all one-to-one assignments of taps to notes: no assignment
    makes more hits on a lane, and the rule's own hits are one. */
module GreedyMatching {
  import opened Options
  import opened Core
  import opened Judging

  function HitCount(fbs: seq<Feedback>, lane: nat): nat {
    if fbs == [] then 0
    else (if fbs[0].lane == lane && IsHit(fbs[0].kind) then 1 else 0) + HitCount(fbs[1..], lane)
  }

  lemma HitCountStep(notes: seq<Note>, taps: seq<Tap>, k: nat, lane: nat)
    requires k < |taps|
    ensures HitCount(Replay(notes, taps, k), lane) ==
            (if taps[k].lane == lane && IsHit(Judge(notes, taps[k]).kind) then 1 else 0) +
            HitCount(Replay(NotesAfter(notes, taps[k]), taps, k + 1), lane)
  {
    assert Replay(notes, taps, k)[1..] == Replay(NotesAfter(notes, taps[k]), taps, k + 1);
  }

  ghost predicate Fits(notes: seq<Note>, taps: seq<Tap>, k: nat, lane: nat, t: nat, i: nat) {
    && k <= t < |taps| && taps[t].lane == lane
    && i < |notes| && notes[i].lane == lane && !notes[i].consumed
    && Abs(taps[t].time - notes[i].target) <= GOOD_WINDOW
  }

  ghost predicate Injective(m: map<nat, nat>) {
    forall t, u :: t in m && u in m && t != u ==> m[t] != m[u]
  }

  /** A one-to-one assignment of taps of one lane (from index k on) to available
      notes of that lane, each within the GOOD window. */
  ghost predicate Matching(m: map<nat, nat>, notes: seq<Note>, taps: seq<Tap>, k: nat, lane: nat) {
    Injective(m) && forall t :: t in m ==> Fits(notes, taps, k, lane, t, m[t])
  }

  lemma KeysInRange(m: map<nat, nat>, notes: seq<Note>, taps: seq<Tap>, k: nat, lane: nat)
    requires Matching(m, notes, taps, k, lane)
    ensures forall t :: t in m ==> k <= t < |taps|
  {
    forall t | t in m
      ensures k <= t < |taps|
    {
      assert Fits(notes, taps, k, lane, t, m[t]);
    }
  }

  lemma DropOne(m: map<nat, nat>, t: nat)
    requires t in m
    ensures |m - {t}| == |m| - 1
  {
    assert (m - {t}).Keys == m.Keys - {t};
  }

  /** Removing the first tap and the note i it takes costs at most one pair:
      a tap that held note i is handed the note the first tap held. */
  function Reassign(m: map<nat, nat>, k: nat, u: nat): map<nat, nat>
    requires u in m
  {
    if k in m && k != u then (m - {k})[u := m[k]] else m - {u}
  }

  lemma ReassignSize(m: map<nat, nat>, k: nat, u: nat)
    requires u in m
    ensures |Reassign(m, k, u)| == |m| - 1
  {
    if k in m && k != u {
      DropOne(m, k);
      assert Reassign(m, k, u).Keys == (m - {k}).Keys;
      assert |Reassign(m, k, u)| == |Reassign(m, k, u).Keys|;
    } else {
      DropOne(m, u);
    }
  }

  /** If tap k takes note i and tap u held it, then u can hold whatever k held. */
  lemma ExchangeFits(notes: seq<Note>, taps: seq<Tap>, k: nat, lane: nat, i: nat, u: nat, j: nat)
    requires Sorted(notes) && Staged(notes) && Nondecreasing(taps) && k < u < |taps|
    requires FirstEligible(notes, taps[k].time, lane) == Some(i)
    requires Fits(notes, taps, k, lane, u, i) && Fits(notes, taps, k, lane, k, j)
    ensures Fits(notes, taps, k, lane, u, j)
  {
    StageNeverRejects(taps[k].time, notes[j].target, notes[j].stage);
    assert Eligible(notes[j], taps[k].time, lane);
    assert i <= j;
  }

  lemma Exchange(m: map<nat, nat>, notes: seq<Note>, taps: seq<Tap>, k: nat, lane: nat, i: nat, u: nat)
    requires Sorted(notes) && Staged(notes) && Nondecreasing(taps) && k < |taps|
    requires Matching(m, notes, taps, k, lane)
    requires FirstEligible(notes, taps[k].time, lane) == Some(i)
    requires u in m && (m[u] == i || (u == k && forall t :: t in m ==> m[t] != i))
    ensures Matching(Reassign(m, k, u), Consume(notes, i), taps, k + 1, lane)
  {
    var rest := Reassign(m, k, u);
    forall t | t in rest
      ensures Fits(Consume(notes, i), taps, k + 1, lane, t, rest[t])
    {
      assert t in m && Fits(notes, taps, k, lane, t, m[t]);
      assert t != k;
      if t == u {
        ExchangeFits(notes, taps, k, lane, i, u, m[k]);
      }
      var source := if t == u then k else t;
      assert source in m && source != u && m[source] != i;
    }
    ReassignInjective(m, k, u);
  }

  lemma ReassignInjective(m: map<nat, nat>, k: nat, u: nat)
    requires Injective(m) && u in m
    ensures Injective(Reassign(m, k, u))
  {
    var rest := Reassign(m, k, u);
    forall t, v | t in rest && v in rest && t != v
      ensures rest[t] != rest[v]
    {
      assert m[if t == u then k else t] != m[if v == u then k else v];
    }
  }

  /** With note i gone and tap k gone, a matching that used neither is intact. */
  lemma Untouched(m: map<nat, nat>, notes: seq<Note>, taps: seq<Tap>, k: nat, lane: nat, later: seq<Note>)
    requires Matching(m, notes, taps, k, lane) && k !in m && |later| == |notes|
    requires forall t :: t in m && m[t] < |notes| ==> later[m[t]] == notes[m[t]]
    ensures Matching(m, later, taps, k + 1, lane)
  {
    forall t | t in m
      ensures Fits(later, taps, k + 1, lane, t, m[t])
    {
      assert Fits(notes, taps, k, lane, t, m[t]);
    }
  }

  /** Upper bound: no assignment of the taps from index k on beats the rule. */
  lemma {:induction false} GreedyIsMaximal(m: map<nat, nat>, notes: seq<Note>, taps: seq<Tap>, k: nat, lane: nat)
    requires Sorted(notes) && Staged(notes) && Nondecreasing(taps) && k <= |taps|
    requires Matching(m, notes, taps, k, lane)
    ensures |m| <= HitCount(Replay(notes, taps, k), lane)
    decreases |taps| - k
  {
    if k == |taps| {
      KeysInRange(m, notes, taps, k, lane);
      assert m == map[];
    } else {
      var later := NotesAfter(notes, taps[k]);
      HitCountStep(notes, taps, k, lane);
      var rest := MatchingStep(m, notes, taps, k, lane);
      GreedyIsMaximal(rest, later, taps, k + 1, lane);
    }
  }

  lemma MatchingStep(m: map<nat, nat>, notes: seq<Note>, taps: seq<Tap>, k: nat, lane: nat) returns (rest: map<nat, nat>)
    requires Sorted(notes) && Staged(notes) && Nondecreasing(taps) && k < |taps|
    requires Matching(m, notes, taps, k, lane)
    ensures Matching(rest, NotesAfter(notes, taps[k]), taps, k + 1, lane)
    ensures |m| <= |rest| + if taps[k].lane == lane && IsHit(Judge(notes, taps[k]).kind) then 1 else 0
  {
    rest := m;
    var found := FirstEligible(notes, taps[k].time, taps[k].lane);
    if k in m {
      assert Fits(notes, taps, k, lane, k, m[k]);
      StageNeverRejects(taps[k].time, notes[m[k]].target, notes[m[k]].stage);
      assert Eligible(notes[m[k]], taps[k].time, lane);
    }
    if taps[k].lane == lane && found.Some? {
      if i :| i in m && m[i] == found.value {
        Exchange(m, notes, taps, k, lane, found.value, i);
        ReassignSize(m, k, i);
        rest := Reassign(m, k, i);
      } else if k in m {
        Exchange(m, notes, taps, k, lane, found.value, k);
        ReassignSize(m, k, k);
        rest := Reassign(m, k, k);
      } else {
        Untouched(m, notes, taps, k, lane, NotesAfter(notes, taps[k]));
      }
    } else {
      forall t | t in m && m[t] < |notes|
        ensures NotesAfter(notes, taps[k])[m[t]] == notes[m[t]]
      {
        assert Fits(notes, taps, k, lane, t, m[t]);
      }
      Untouched(m, notes, taps, k, lane, NotesAfter(notes, taps[k]));
    }
  }

  /** Lower bound: the rule's own hits are such an assignment. */
  lemma {:induction false} GreedyIsMatching(notes: seq<Note>, taps: seq<Tap>, k: nat, lane: nat) returns (m: map<nat, nat>)
    requires k <= |taps|
    ensures Matching(m, notes, taps, k, lane)
    ensures |m| == HitCount(Replay(notes, taps, k), lane)
    decreases |taps| - k
  {
    if k == |taps| {
      m := map[];
    } else {
      var later := NotesAfter(notes, taps[k]);
      HitCountStep(notes, taps, k, lane);
      m := GreedyIsMatching(later, taps, k + 1, lane);
      KeysInRange(m, later, taps, k + 1, lane);
      Weaken(m, notes, taps, k, lane);
      var found := FirstEligible(notes, taps[k].time, taps[k].lane);
      if taps[k].lane == lane && found.Some? {
        AddPair(m, notes, taps, k, lane, found.value);
        m := m[k := found.value];
      }
    }
  }

  lemma Weaken(m: map<nat, nat>, notes: seq<Note>, taps: seq<Tap>, k: nat, lane: nat)
    requires k < |taps| && Matching(m, NotesAfter(notes, taps[k]), taps, k + 1, lane)
    ensures Matching(m, notes, taps, k, lane)
    ensures forall t :: t in m ==> Some(m[t]) != FirstEligible(notes, taps[k].time, taps[k].lane)
  {
    forall t | t in m
      ensures Fits(notes, taps, k, lane, t, m[t]) && Some(m[t]) != FirstEligible(notes, taps[k].time, taps[k].lane)
    {
      assert Fits(NotesAfter(notes, taps[k]), taps, k + 1, lane, t, m[t]);
    }
  }

  lemma AddPair(m: map<nat, nat>, notes: seq<Note>, taps: seq<Tap>, k: nat, lane: nat, i: nat)
    requires Matching(m, notes, taps, k, lane) && k !in m && Fits(notes, taps, k, lane, k, i)
    requires forall t :: t in m ==> m[t] != i
    ensures Matching(m[k := i], notes, taps, k, lane)
    ensures |m[k := i]| == |m| + 1
  {
    assert m[k := i].Keys == m.Keys + {k};
  }
}
