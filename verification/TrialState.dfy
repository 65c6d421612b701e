/** The shared trial object, updated in place by the threads, and the window of notes
    it hands to the renderer. */
module TrialState {
  import opened Core
  import opened Judging
  import opened Scoring
  import opened EngineRules
  import opened JudgementEngine
  import opened TrialRules

  class App {
    const engine: Engine
    var origin: Reading
    var finished: bool
    var finalScore: ScoreSummary
    var stoppedEarly: bool
    var running: bool

    ghost function View(): Trial
      reads this, engine, engine.feedback
    {
      Trial(engine.View(), origin, finished, finalScore, stoppedEarly, running)
    }

    constructor (engine: Engine)
      requires engine.Valid()
      ensures View() == Ready(engine.View()) && this.engine == engine && engine.Valid()
    {
      this.engine := engine;
      origin, finished, finalScore, stoppedEarly, running := 0, false, NO_SCORE, false, true;
    }

    method Start(now: Reading)
      modifies this`origin
      ensures View() == TrialRules.Start(old(View()), now)
    {
      if origin == 0 { origin := now; }
    }

    method Invalidate(text: string)
      requires engine.Valid()
      modifies engine`reason
      ensures engine.Valid() && View() == Fault(old(View()), text)
    {
      if !finished { engine.Invalidate(text); }
    }

    /** A tap on a lane of this run changes the engine as the engine says, and no more. */
    method JudgeTap(time: TimeNs, lane: nat)
      requires engine.Valid() && lane < engine.lanes
      modifies engine, engine.cursors, engine.feedback
      ensures engine.Valid() && View() == old(View()).(engine := Step(old(engine.View()), Core.Tap(time, lane)))
    {
      var feedback := engine.Hit(time, lane);
    }

    method Tap(lane: nat, now: Reading)
      requires engine.Valid()
      modifies engine, engine.cursors, engine.feedback
      ensures engine.Valid() && View() == TapLane(old(View()), lane, now)
    {
      TapCases(View(), lane, now);
      if origin == 0 || finished { return; }
      ghost var before := engine.View();
      if lane >= engine.lanes {
        engine.Invalidate(OUTSIDE);
        assert engine.View() == TrialRules.Invalidate(before, OUTSIDE);
      } else {
        JudgeTap(now - origin, lane);
      }
    }

    /** seen is the unlocked look at origin and finished; Invalidate looks again. */
    method Abort(text: string, seen: bool)
      requires engine.Valid()
      modifies this`stoppedEarly, this`running, engine`reason
      ensures engine.Valid() && View() == TrialRules.Abort(old(View()), text, seen)
    {
      if seen {
        Invalidate(text);
        stoppedEarly := true;
      }
      running := false;
    }

    method Finish(now: Reading)
      modifies this`finished, this`finalScore
      ensures View() == TrialRules.Finish(old(View()), now)
    {
      if origin != 0 && !finished && now - origin >= FINISH {
        finalScore := engine.Results(Scored);
        finished := true;
      }
    }

    /** The first note not before the time. */
    method LowerBound(notes: seq<Note>, time: int) returns (low: nat)
      requires Sorted(notes)
      ensures low <= |notes|
      ensures forall i :: 0 <= i < low ==> notes[i].target < time
      ensures forall i :: low <= i < |notes| ==> notes[i].target >= time
    {
      low := 0;
      var high := |notes|;
      while low < high
        invariant 0 <= low <= high <= |notes|
        invariant forall i :: 0 <= i < low ==> notes[i].target < time
        invariant forall i :: high <= i < |notes| ==> notes[i].target >= time
      {
        var mid := (low + high) / 2;
        if notes[mid].target < time { low := mid + 1; } else { high := mid; }
      }
    }

    /** Binary search to the window's start, then a walk to its end. */
    method Window(notes: seq<Note>, now: TimeNs) returns (shown: seq<RenderNote>)
      requires Sorted(notes)
      ensures shown == Shown(notes, now)
    {
      var first := LowerBound(notes, now - GOOD_WINDOW);
      var k := first;
      shown := [];
      NothingShown(notes[..first], now, 0);
      assert notes[..first][..0] == [];
      while k < |notes| && notes[k].target <= now + SECOND
        invariant first <= k <= |notes| && shown == Shown(notes[..k], now)
      {
        assert notes[..k + 1][..k] == notes[..k];
        if !notes[k].consumed { shown := shown + [RenderNote(notes[k].lane, notes[k].target)]; }
        k := k + 1;
      }
      NothingShown(notes, now, k);
    }

    lemma EngineFits(now: TimeNs)
      requires engine.Valid()
      ensures Sorted(engine.notes) && |Shown(engine.notes, now)| <= 416
    {
      WindowFits(engine.View(), engine.chart, now);
    }

    /** Exactly the visible notes, never more than the 512 reserved. */
    method Snapshot(now: Reading) returns (shown: seq<RenderNote>)
      requires engine.Valid()
      ensures |shown| <= 416
      ensures shown == if origin != 0 && !finished then Shown(engine.notes, now - origin) else []
    {
      shown := [];
      if origin != 0 && !finished {
        EngineFits(now - origin);
        shown := Window(engine.notes, now - origin);
      }
    }
  }
}
