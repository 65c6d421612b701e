/** The engine object: it updates cursors, consumption flags, the input log and
    the per-lane feedback in place.  Every method is tied to EngineRules. */
module JudgementEngine {
  import opened Options
  import opened Core
  import opened Judging
  import opened Scoring
  import opened EngineRules

  /** The constructor's validation loop; it also files each note under its lane. */
  method CheckChart(lanes: nat, notes: seq<Note>) returns (ok: bool, laneNotes: seq<seq<nat>>)
    requires lanes <= MAX_LANES
    ensures ok <==> ChartAccepted(lanes, notes)
    ensures ok ==> laneNotes == LaneTable(notes)
  {
    var previous: seq<int> := seq(MAX_LANES, _ => INT64_MIN);
    var previousTarget := INT64_MIN;
    var ids: set<Id> := {};
    laneNotes := seq(MAX_LANES, _ => []);
    for index := 0 to |notes|
      invariant ChartAccepted(lanes, notes[..index])
      invariant previousTarget == if index == 0 then INT64_MIN else notes[index - 1].target
      invariant Filed(notes[..index], ids, previous, laneNotes)
    {
      var note := notes[index];
      assert notes[..index + 1] == notes[..index] + [note];
      AcceptStep(lanes, notes[..index], note, ids);
      if note.lane >= lanes || note.consumed || !TargetInStage(note.target, note.stage) ||
         note.target < previousTarget || note.id == NO_NOTE || note.id in ids ||
         (previous[note.lane] != INT64_MIN && note.target - previous[note.lane] < LANE_LOCK)
      {
        RejectedPrefix(lanes, notes, index + 1);
        return false, laneNotes;
      }
      FileNote(notes[..index], note, ids, previous, laneNotes);
      ids := ids + {note.id};
      previous := previous[note.lane := note.target];
      previousTarget := note.target;
      laneNotes := laneNotes[note.lane := laneNotes[note.lane] + [index]];
    }
    assert notes[..|notes|] == notes;
    ok := true;
  }

  lemma RejectedPrefix(lanes: nat, notes: seq<Note>, n: nat)
    requires n <= |notes| && !ChartAccepted(lanes, notes[..n])
    ensures !ChartAccepted(lanes, notes)
  {
    if ChartAccepted(lanes, notes) {
      var part := notes[..n];
      assert forall i :: 0 <= i < n ==> part[i] == notes[i];
      assert ChartAccepted(lanes, part);
    }
  }

  ghost predicate Filed(notes: seq<Note>, ids: set<Id>, previous: seq<int>, laneNotes: seq<seq<nat>>) {
    && |previous| == |laneNotes| == MAX_LANES
    && ids == IdsOf(notes)
    && (forall l :: 0 <= l < MAX_LANES ==> previous[l] == LastTarget(notes, l))
    && (forall l :: 0 <= l < MAX_LANES ==> laneNotes[l] == LaneIndex(notes, l))
  }

  lemma FileNote(notes: seq<Note>, note: Note, ids: set<Id>, previous: seq<int>, laneNotes: seq<seq<nat>>)
    requires Filed(notes, ids, previous, laneNotes) && note.lane < MAX_LANES
    ensures Filed(notes + [note], ids + {note.id}, previous[note.lane := note.target],
                  laneNotes[note.lane := laneNotes[note.lane] + [|notes|]])
  {
    var more := notes + [note];
    assert more[..|notes|] == notes;
    assert more[|notes|] == note;
    assert forall i :: 0 <= i < |notes| ==> more[i] == notes[i];
  }

  /** The note at position c of the table, if any, is neither consumed nor expired. */
  predicate OpenAt(notes: seq<Note>, table: seq<nat>, c: nat, time: int) {
    c < |table| && table[c] < |notes| ==> !notes[table[c]].consumed && notes[table[c]].target >= time - GOOD_WINDOW
  }

  /** Consuming a note leaves every other lane's cursor justified. */
  lemma SpentStays(before: seq<Note>, after: seq<Note>, tables: seq<seq<nat>>, cursors: seq<nat>, lane: nat, time: TimeNs)
    requires |tables| == |cursors| && after == NotesAfter(before, Tap(time, lane))
    requires forall l :: 0 <= l < |tables| && l != lane ==> SpentBefore(before, tables[l], cursors[l], time)
    ensures forall l :: 0 <= l < |tables| && l != lane ==> SpentBefore(after, tables[l], cursors[l], time)
  {
  }

  class Engine {
    const lanes: nat
    const maxEvents: nat
    const laneNotes: seq<seq<nat>>
    const cursors: array<nat>
    const feedback: array<Feedback>
    var notes: seq<Note>
    var records: seq<Feedback>
    var lastInput: TimeNs
    var reason: Option<Reason>
    ghost const chart: seq<Note>

    ghost function View(): View
      reads this, feedback
    {
      EngineRules.View(lanes, maxEvents, notes, records, feedback[..], lastInput, reason)
    }

    /** The state is a sound state of the naive rule, and nothing a cursor has
        passed can be matched by any tap still to come. */
    ghost predicate Valid()
      reads this, feedback, cursors
    {
      && lanes <= MAX_LANES && CapacityValid(maxEvents)
      && laneNotes == LaneTable(chart)
      && Sound(View(), chart)
      && CursorsJustified()
    }

    ghost predicate CursorsJustified()
      reads this, cursors
    {
      && cursors.Length == MAX_LANES == |laneNotes|
      && forall l :: 0 <= l < MAX_LANES ==> SpentBefore(notes, laneNotes[l], cursors[l], lastInput)
    }

    constructor (lanes: nat, maxEvents: nat, notes: seq<Note>, laneNotes: seq<seq<nat>>)
      requires lanes <= MAX_LANES && CapacityValid(maxEvents)
      requires ChartAccepted(lanes, notes) && laneNotes == LaneTable(notes)
      ensures Valid() && fresh(cursors) && fresh(feedback)
      ensures chart == notes && View() == Initial(lanes, maxEvents, notes)
    {
      this.lanes, this.maxEvents, this.laneNotes, this.chart := lanes, maxEvents, laneNotes, notes;
      this.notes, this.records, this.lastInput, this.reason := notes, [], INT64_MIN, None;
      cursors := new nat[MAX_LANES](_ => 0);
      feedback := new Feedback[MAX_LANES](_ => NO_FEEDBACK);
      new;
      InitialIsSound(lanes, maxEvents, notes);
      assert feedback[..] == seq(MAX_LANES, _ => NO_FEEDBACK);
    }

    /** The cursor loop: it stops at the first note still open at the latest input. */
    method Advance(lane: nat)
      requires lane < cursors.Length && lane < |laneNotes|
      requires Indexes(notes, lane, laneNotes[lane]) && SpentBefore(notes, laneNotes[lane], cursors[lane], lastInput)
      modifies cursors
      ensures old(cursors[lane]) <= cursors[lane]
      ensures SpentBefore(notes, laneNotes[lane], cursors[lane], lastInput)
      ensures forall l :: 0 <= l < cursors.Length && l != lane ==> cursors[l] == old(cursors[l])
      ensures OpenAt(notes, laneNotes[lane], cursors[lane], lastInput)
    {
      var indices := laneNotes[lane];
      while cursors[lane] < |indices|
        invariant old(cursors[lane]) <= cursors[lane]
        invariant forall l :: 0 <= l < cursors.Length && l != lane ==> cursors[l] == old(cursors[l])
        invariant SpentBefore(notes, indices, cursors[lane], lastInput)
        decreases |indices| - cursors[lane]
      {
        var note := notes[indices[cursors[lane]]];
        if !note.consumed && note.target >= lastInput - GOOD_WINDOW { break; }
        cursors[lane] := cursors[lane] + 1;
      }
    }

    lemma ReadyToMatch(lane: nat)
      requires Valid() && lane < MAX_LANES
      ensures Sorted(notes) && Staged(notes) && Indexes(notes, lane, laneNotes[lane])
    {
      LaneIndexIndexes(chart, lane);
      RemainingSameChart(chart, TapsOf(records), 0);
      SameChartIndexes(chart, notes, lane, laneNotes[lane]);
      SameChartOrder(chart, notes);
    }

    /** The matching step under the advanced cursor. */
    method Match(blank: Feedback) returns (event: Feedback)
      requires blank == Feedback(lastInput, 0, NO_NOTE, blank.lane, InputStage(lastInput), Ignored)
      requires blank.lane < cursors.Length && blank.lane < |laneNotes| && InputStage(lastInput) != NoStage
      requires Sorted(notes) && Staged(notes) && Indexes(notes, blank.lane, laneNotes[blank.lane])
      requires SpentBefore(notes, laneNotes[blank.lane], cursors[blank.lane], lastInput)
      requires OpenAt(notes, laneNotes[blank.lane], cursors[blank.lane], lastInput)
      modifies this`notes, cursors
      ensures event == Judge(old(notes), Tap(lastInput, blank.lane))
      ensures notes == NotesAfter(old(notes), Tap(lastInput, blank.lane))
      ensures old(cursors[blank.lane]) <= cursors[blank.lane]
      ensures SpentBefore(notes, laneNotes[blank.lane], cursors[blank.lane], lastInput)
      ensures forall l :: 0 <= l < cursors.Length && l != blank.lane ==> cursors[l] == old(cursors[l])
    {
      var indices := laneNotes[blank.lane];
      var cursor := cursors[blank.lane];
      CursorFindsFirst(notes, indices, cursor, Tap(lastInput, blank.lane));
      event := blank.(kind := Empty);
      if cursor < |indices| {
        var note := notes[indices[cursor]];
        if note.stage == event.stage && note.target <= event.event + GOOD_WINDOW {
          var delay := event.event - note.target;
          event := event.(noteId := note.id, delay := delay, kind := if Abs(delay) <= PERFECT_WINDOW then Perfect else Good);
          notes := notes[indices[cursor] := note.(consumed := true)];
          cursors[blank.lane] := cursor + 1;
        }
      }
    }

    /** Judges and logs an input of a running stage. */
    method JudgeInput(blank: Feedback) returns (event: Feedback)
      requires blank == Feedback(lastInput, 0, NO_NOTE, blank.lane, InputStage(lastInput), Ignored)
      requires blank.lane < MAX_LANES == feedback.Length && InputStage(lastInput) != NoStage
      requires Sorted(notes) && Staged(notes) && CursorsJustified() && Indexes(notes, blank.lane, laneNotes[blank.lane])
      modifies this`notes, this`records, cursors, feedback
      ensures event == Judge(old(notes), Tap(lastInput, blank.lane))
      ensures notes == NotesAfter(old(notes), Tap(lastInput, blank.lane))
      ensures records == old(records) + [event]
      ensures feedback[..] == old(feedback[..])[blank.lane := event]
      ensures CursorsJustified()
      ensures forall l :: 0 <= l < MAX_LANES ==> old(cursors[l]) <= cursors[l]
    {
      Advance(blank.lane);
      label matching:
      event := Match(blank);
      SpentStays(old@matching(notes), notes, laneNotes, old@matching(cursors[..]), blank.lane, lastInput);
      records := records + [event];
      feedback[blank.lane] := event;
    }

    /** One input.  The result is None where the engine throws: a lane outside
        this run.  Otherwise state and feedback are those of the naive rule. */
    method Hit(time: TimeNs, lane: nat) returns (r: Option<Feedback>)
      requires Valid()
      modifies this, cursors, feedback
      ensures Valid()
      ensures View() == Step(old(View()), Tap(time, lane))
      ensures r == if lane < lanes then Some(Outcome(old(View()), Tap(time, lane))) else None
      ensures forall l :: 0 <= l < MAX_LANES ==> old(cursors[l]) <= cursors[l] <= |laneNotes[l]|
    {
      if lane >= lanes { return None; }
      var event := Feedback(time, 0, NO_NOTE, lane, InputStage(time), Ignored);
      if reason.Some? {
        return Some(event.(kind := Invalid));
      }
      if time < lastInput {
        reason := Some(WentBackwards);
        return Some(event.(kind := Invalid));
      }
      StepKeepsSound(View(), chart, Tap(time, lane));
      ReadyToMatch(lane);
      lastInput := time;
      if event.stage == NoStage { return Some(event); }
      if |records| == maxEvents {
        reason := Some(LogFull);
        event := event.(kind := Invalid);
        feedback[lane] := event;
        return Some(event);
      }
      event := JudgeInput(event);
      r := Some(event);
    }

    /** Only the first cause of invalidity is kept. */
    method Invalidate(text: string)
      requires Valid()
      modifies this`reason
      ensures Valid()
      ensures View() == old(View()).(reason := if old(reason).Some? then old(reason)
                                               else Some(Host(if text == "" then "run invalidated by host" else text)))
    {
      if reason.None? {
        reason := Some(Host(if text == "" then "run invalidated by host" else text));
      }
    }

    /** The aggregation loops. */
    method Results(stage: Stage) returns (score: ScoreSummary)
      ensures score == if stage == NoStage then ScoreSummary(0, 0, 0, 0, 0, 0, 0, 0) else Tally(notes, records, stage)
    {
      score := ScoreSummary(0, 0, 0, 0, 0, 0, 0, 0);
      if stage == NoStage { return; }
      for i := 0 to |notes|
        invariant score == ScoreSummary(NoteCount(notes[..i], stage), 0, 0, 0, 0, 0, 0, 0)
      {
        assert notes[..i + 1][..i] == notes[..i];
        if notes[i].stage == stage { score := score.(notes := score.notes + 1); }
      }
      assert notes[..|notes|] == notes;
      for k := 0 to |records|
        invariant score.notes == NoteCount(notes, stage) && score.missed == 0 && score.delaySum == 0
        invariant score.perfect == KindCount(records[..k], stage, Perfect)
        invariant score.good == KindCount(records[..k], stage, Good)
        invariant score.empty == KindCount(records[..k], stage, Empty)
        invariant score.rawScore == 2 * score.perfect + score.good - 5 * score.empty
        invariant score.hitDelaySum == HitDelay(records[..k], stage)
      {
        var event := records[k];
        assert records[..k + 1][..k] == records[..k];
        if event.stage == stage {
          if IsHit(event.kind) {
            if event.kind == Perfect {
              score := score.(perfect := score.perfect + 1, rawScore := score.rawScore + 2);
            } else {
              score := score.(good := score.good + 1, rawScore := score.rawScore + 1);
            }
            score := score.(hitDelaySum := score.hitDelaySum + Abs(event.delay));
          } else if event.kind == Empty {
            score := score.(empty := score.empty + 1, rawScore := score.rawScore - 5);
          }
        }
      }
      assert records[..|records|] == records;
      score := score.(missed := score.notes - score.perfect - score.good,
                      delaySum := score.hitDelaySum + score.empty * EMPTY_PENALTY);
    }
  }

  /** Construction either throws (null) or yields a fresh engine; it throws exactly
      when the configuration, the log capacity or the chart is unacceptable. */
  method Create(lanes: nat, density: real, maxEvents: nat, notes: seq<Note>) returns (engine: Engine?)
    ensures engine != null <==> ConfigValid(lanes, density) && CapacityValid(maxEvents) && ChartAccepted(lanes, notes)
    ensures engine != null ==> fresh(engine) && fresh(engine.cursors) && fresh(engine.feedback) && engine.Valid()
    ensures engine != null ==> engine.chart == notes && engine.View() == Initial(lanes, maxEvents, notes)
  {
    if !ConfigValid(lanes, density) || maxEvents == 0 || maxEvents > INT64_MAX / EMPTY_PENALTY {
      return null;
    }
    var ok, laneNotes := CheckChart(lanes, notes);
    if !ok { return null; }
    engine := new Engine(lanes, maxEvents, notes, laneNotes);
  }
}
