/** The independent replay tool: it checks the note rows, replays the input rows
    with cursors alone (no consumption flags) and keeps running totals.  It is
    proved to pass exactly the evidence of ReplayRules.EvidencePasses. */
module ReplayAudit {
  import opened Options
  import opened Core
  import opened Judging
  import opened Scoring
  import opened EngineRules
  import opened ReplayRules

  // ----- note rows ----------------------------------------------------------

  function LaneNotes(notes: seq<Note>, lane: nat): seq<Note> {
    if notes == [] then []
    else
      var n := |notes| - 1;
      LaneNotes(notes[..n], lane) + if notes[n].lane == lane then [notes[n]] else []
  }

  lemma {:induction false} LaneNotesIndexed(notes: seq<Note>, lane: nat)
    ensures |LaneNotes(notes, lane)| == |LaneIndex(notes, lane)|
    ensures forall p :: 0 <= p < |LaneIndex(notes, lane)| ==>
              LaneIndex(notes, lane)[p] < |notes| && LaneNotes(notes, lane)[p] == notes[LaneIndex(notes, lane)[p]]
  {
    if notes != [] {
      LaneNotesIndexed(notes[..|notes| - 1], lane);
    }
  }

  lemma {:induction false} LastTargetIsLast(notes: seq<Note>, lane: nat)
    ensures var own := LaneNotes(notes, lane);
            LastTarget(notes, lane) == if own == [] then INT64_MIN else own[|own| - 1].target
  {
    if notes != [] {
      LastTargetIsLast(notes[..|notes| - 1], lane);
    }
  }

  ghost predicate Grouped(lanes: nat, notes: seq<Note>, laneNotes: seq<seq<Note>>) {
    |laneNotes| == lanes && forall l :: 0 <= l < lanes ==> laneNotes[l] == LaneNotes(notes, l)
  }

  lemma GroupOne(lanes: nat, notes: seq<Note>, laneNotes: seq<seq<Note>>, note: Note)
    requires Grouped(lanes, notes, laneNotes) && note.lane < lanes
    ensures Grouped(lanes, notes + [note], laneNotes[note.lane := laneNotes[note.lane] + [note]])
  {
    assert (notes + [note])[..|notes|] == notes;
  }

  lemma ChartOfSnoc(lanes: nat, rows: seq<NoteRow>, n: nat)
    requires n < |rows| && NotesReadable(lanes, rows[..n]) && NoteReadable(lanes, rows[n])
    ensures NotesReadable(lanes, rows[..n + 1])
    ensures ChartOf(lanes, rows[..n + 1]) == ChartOf(lanes, rows[..n]) + [NoteOf(rows[n])]
  {
    assert rows[..n + 1] == rows[..n] + [rows[n]];
  }

  lemma GeneratedPrefix(lanes: nat, notes: seq<Note>, n: nat)
    requires n <= |notes| && Generated(lanes, notes)
    ensures Generated(lanes, notes[..n])
  {
    assert forall i :: 0 <= i < n ==> notes[..n][i] == notes[i];
  }

  lemma UngeneratedPrefix(lanes: nat, rows: seq<NoteRow>, n: nat)
    requires n <= |rows| && NotesReadable(lanes, rows[..n]) && !Generated(lanes, ChartOf(lanes, rows[..n]))
    ensures !NotesPass(lanes, rows)
  {
    if NotesReadable(lanes, rows) {
      assert ChartOf(lanes, rows)[..n] == ChartOf(lanes, rows[..n]);
      if Generated(lanes, ChartOf(lanes, rows)) {
        GeneratedPrefix(lanes, ChartOf(lanes, rows), n);
      }
    }
  }

  /** The checks made on one more note, given the notes and lane lists so far. */
  predicate NoteChecks(notes: seq<Note>, own: seq<Note>, note: Note) {
    && note.id == |notes|
    && TargetInStage(note.target, note.stage)
    && (notes != [] ==> note.target >= notes[|notes| - 1].target)
    && (own != [] ==> note.target - own[|own| - 1].target >= LANE_LOCK)
  }

  /** A note keeps the prefix generated exactly when its own checks pass. */
  lemma GeneratedStep(lanes: nat, notes: seq<Note>, note: Note)
    requires note.lane < lanes && !note.consumed && note.id != NO_NOTE
    ensures Generated(lanes, notes + [note]) <==>
              Generated(lanes, notes) && NoteChecks(notes, LaneNotes(notes, note.lane), note)
  {
    var more := notes + [note];
    if Generated(lanes, more) {
      GeneratedPrefix(lanes, more, |notes|);
      assert more[..|notes|] == notes;
    }
    if Generated(lanes, notes) {
      ConsecutiveSnoc(notes, note);
      LastTargetIsLast(notes, note.lane);
      LastInStage(notes, note.lane);
      AcceptStep(lanes, notes, note, IdsOf(notes));
    }
  }

  lemma LastInStage(notes: seq<Note>, lane: nat)
    requires Staged(notes)
    ensures var own := LaneNotes(notes, lane); own != [] ==> own[|own| - 1].target != INT64_MIN
  {
    LaneNotesIndexed(notes, lane);
  }

  lemma ConsecutiveSnoc(notes: seq<Note>, note: Note)
    requires ConsecutiveIds(notes)
    ensures ConsecutiveIds(notes + [note]) <==> note.id == |notes|
    ensures note.id == |notes| ==> note.id !in IdsOf(notes)
  {
    var more := notes + [note];
    assert more[|notes|] == note;
    assert forall i :: 0 <= i < |notes| ==> more[i] == notes[i];
  }

  function StageCounts(notes: seq<Note>): map<Stage, nat> {
    map[Calibration := NoteCount(notes, Calibration), Scored := NoteCount(notes, Scored)]
  }

  lemma StageCountsSnoc(notes: seq<Note>, note: Note)
    requires note.stage != NoStage
    ensures note.stage in StageCounts(notes)
    ensures StageCounts(notes + [note]) == StageCounts(notes)[note.stage := StageCounts(notes)[note.stage] + 1]
  {
    assert (notes + [note])[..|notes|] == notes;
  }

  /** How many of a note's own checks fail, its place in the order apart. */
  function NoteComplaints(index: nat, own: seq<Note>, note: Note): nat {
    (if note.id != index then 1 else 0) + (if TargetInStage(note.target, note.stage) then 0 else 1) +
    (if own != [] && note.target - own[|own| - 1].target < LANE_LOCK then 1 else 0)
  }

  /** What the note loop keeps. */
  ghost predicate Checked(lanes: nat, rows: seq<NoteRow>, notes: seq<Note>, laneNotes: seq<seq<Note>>, counts: map<Stage, nat>,
                          previous: int, errors: nat) {
    && NotesReadable(lanes, rows) && notes == ChartOf(lanes, rows)
    && Grouped(lanes, notes, laneNotes) && counts == StageCounts(notes)
    && previous == (if notes == [] then -1 else notes[|notes| - 1].target)
    && (errors == 0 <==> Generated(lanes, notes))
  }

  lemma CheckGoesOn(lanes: nat, rows: seq<NoteRow>, n: nat, notes: seq<Note>, laneNotes: seq<seq<Note>>, counts: map<Stage, nat>,
                    previous: int, errors: nat)
    requires n < |rows| && NoteReadable(lanes, rows[n])
    requires Checked(lanes, rows[..n], notes, laneNotes, counts, previous, errors) && NoteOf(rows[n]).target >= previous
    ensures var note := NoteOf(rows[n]);
            && note.stage in counts
            && Checked(lanes, rows[..n + 1], notes + [note], laneNotes[note.lane := laneNotes[note.lane] + [note]],
                       counts[note.stage := counts[note.stage] + 1], note.target,
                       errors + NoteComplaints(n, laneNotes[note.lane], note))
  {
    var note := NoteOf(rows[n]);
    ChartOfSnoc(lanes, rows, n);
    GeneratedStep(lanes, notes, note);
    GroupOne(lanes, notes, laneNotes, note);
    StageCountsSnoc(notes, note);
  }

  lemma CheckBreaks(lanes: nat, rows: seq<NoteRow>, n: nat, notes: seq<Note>, laneNotes: seq<seq<Note>>, counts: map<Stage, nat>,
                    previous: int, errors: nat)
    requires n < |rows| && Checked(lanes, rows[..n], notes, laneNotes, counts, previous, errors)
    requires !NoteReadable(lanes, rows[n]) || NoteOf(rows[n]).target < previous
    ensures !NotesPass(lanes, rows)
  {
    if NoteReadable(lanes, rows[n]) {
      ChartOfSnoc(lanes, rows, n);
      GeneratedStep(lanes, notes, NoteOf(rows[n]));
      UngeneratedPrefix(lanes, rows, n + 1);
    }
  }

  lemma CheckStarts(lanes: nat)
    ensures Checked(lanes, [], [], seq(lanes, _ => []), map[Calibration := 0, Scored := 0], -1, 0)
  {
  }

  lemma CheckEnds(lanes: nat, rows: seq<NoteRow>, notes: seq<Note>, laneNotes: seq<seq<Note>>, counts: map<Stage, nat>,
                  previous: int, errors: nat)
    requires Checked(lanes, rows, notes, laneNotes, counts, previous, errors)
    ensures NotesReadable(lanes, rows) && notes == ChartOf(lanes, rows) && Grouped(lanes, notes, laneNotes)
    ensures counts == StageCounts(notes) && (errors == 0 <==> NotesPass(lanes, rows))
  {
  }

  /** One readable row in order: counts its complaints and files the note. */
  method FileRow(lanes: nat, ghost done: seq<NoteRow>, row: NoteRow, index: nat, notes: seq<Note>, laneNotes: seq<seq<Note>>,
                 counts: map<Stage, nat>, ghost previous: int, errors: nat)
    returns (newErrors: nat, newNotes: seq<Note>, newLaneNotes: seq<seq<Note>>, newCounts: map<Stage, nat>)
    requires NoteReadable(lanes, row) && row.target >= previous && index == |done|
    requires Checked(lanes, done, notes, laneNotes, counts, previous, errors)
    ensures Checked(lanes, done + [row], newNotes, newLaneNotes, newCounts, row.target, newErrors)
  {
    assert (done + [row])[..index] == done && (done + [row])[..index + 1] == done + [row];
    CheckGoesOn(lanes, done + [row], index, notes, laneNotes, counts, previous, errors);
    var note := NoteOf(row);
    var own := laneNotes[note.lane];
    newErrors := errors + NoteComplaints(index, own, note);
    newNotes := notes + [note];
    newLaneNotes := laneNotes[note.lane := own + [note]];
    newCounts := counts[note.stage := counts[note.stage] + 1];
  }

  /** The note-row loop.  Malformed stands for evidence the tool refuses to replay. */
  method CheckNotes(lanes: nat, rows: seq<NoteRow>)
    returns (malformed: bool, errors: nat, notes: seq<Note>, laneNotes: seq<seq<Note>>, counts: map<Stage, nat>)
    ensures !malformed && errors == 0 <==> NotesPass(lanes, rows)
    ensures !malformed ==> NotesReadable(lanes, rows) && notes == ChartOf(lanes, rows) && Grouped(lanes, notes, laneNotes)
    ensures !malformed ==> counts == StageCounts(notes)
  {
    malformed, errors, notes, laneNotes := false, 0, [], seq(lanes, _ => []);
    counts := map[Calibration := 0, Scored := 0];
    var previousTarget := -1;
    CheckStarts(lanes);
    for index := 0 to |rows|
      invariant Checked(lanes, rows[..index], notes, laneNotes, counts, previousTarget, errors)
    {
      var row := rows[index];
      if !NoteReadable(lanes, row) || row.target < previousTarget {
        CheckBreaks(lanes, rows, index, notes, laneNotes, counts, previousTarget, errors);
        malformed := true;
        return;
      }
      assert rows[..index + 1] == rows[..index] + [row];
      errors, notes, laneNotes, counts := FileRow(lanes, rows[..index], row, index, notes, laneNotes, counts, previousTarget, errors);
      previousTarget := row.target;
    }
    assert rows[..|rows|] == rows;
    CheckEnds(lanes, rows, notes, laneNotes, counts, previousTarget, errors);
  }

  // ----- input rows ---------------------------------------------------------

  /** With cursors alone: everything before c is spent, everything after is unconsumed. */
  predicate Tracks(now: seq<Note>, table: seq<nat>, c: nat, time: int) {
    && SpentBefore(now, table, c, time)
    && (forall p :: c <= p < |table| ==> table[p] < |now| && !now[table[p]].consumed)
  }

  ghost predicate AllTrack(lanes: nat, chart: seq<Note>, now: seq<Note>, cursors: seq<nat>, time: int) {
    |cursors| == lanes && forall l :: 0 <= l < lanes ==> Tracks(now, LaneIndex(chart, l), cursors[l], time)
  }

  /** Where the cursor loop stops. */
  predicate Stopped(own: seq<Note>, start: nat, c: nat, event: int) {
    && start <= c <= |own|
    && (forall p :: start <= p < c ==> own[p].target < event - GOOD_WINDOW)
    && (c < |own| ==> own[c].target >= event - GOOD_WINDOW)
  }

  function Candidate(own: seq<Note>, c: nat, event: int): Option<Note> {
    if c < |own| && own[c].stage == InputStage(event) && own[c].target <= event + GOOD_WINDOW then Some(own[c]) else None
  }

  /** The lane list holds the notes the table points at, up to consumption. */
  predicate Lists(now: seq<Note>, own: seq<Note>, table: seq<nat>) {
    |own| == |table| && forall p :: 0 <= p < |table| ==>
      table[p] < |now| && now[table[p]].(consumed := true) == own[p].(consumed := true)
  }

  lemma LaneLists(chart: seq<Note>, now: seq<Note>, lane: nat)
    requires SameChart(chart, now)
    ensures Lists(now, LaneNotes(chart, lane), LaneIndex(chart, lane))
    ensures Indexes(now, lane, LaneIndex(chart, lane))
  {
    LaneIndexIndexes(chart, lane);
    LaneNotesIndexed(chart, lane);
    SameChartIndexes(chart, now, lane, LaneIndex(chart, lane));
  }

  /** The stopped cursor is at the naive rule's choice, or there is none. */
  lemma StoppedAtChoice(now: seq<Note>, own: seq<Note>, table: seq<nat>, tap: Tap, start: nat, c: nat, last: int)
    requires Sorted(now) && Staged(now) && Lists(now, own, table) && Indexes(now, tap.lane, table)
    requires InputStage(tap.time) != NoStage && last <= tap.time
    requires Tracks(now, table, start, last) && Stopped(own, start, c, tap.time)
    ensures Tracks(now, table, c, tap.time)
    ensures Candidate(own, c, tap.time).None? ==> FirstEligible(now, tap.time, tap.lane) == None
    ensures Candidate(own, c, tap.time).Some? ==> c < |table| && FirstEligible(now, tap.time, tap.lane) == Some(table[c])
  {
    forall p | start <= p < |table|
      ensures now[table[p]].target == own[p].target && now[table[p]].stage == own[p].stage
    {
      assert now[table[p]].(consumed := true).stage == own[p].(consumed := true).stage;
    }
    CursorFindsFirst(now, table, c, tap);
  }

  lemma ConsumedTracks(now: seq<Note>, table: seq<nat>, lane: nat, c: nat, time: int)
    requires Indexes(now, lane, table) && Tracks(now, table, c, time) && c < |table|
    ensures Tracks(Consume(now, table[c]), table, c + 1, time)
  {
  }

  /** Cursor-only matching agrees with the naive rule on the consumed notes. */
  lemma CursorReplayMatches(chart: seq<Note>, now: seq<Note>, tap: Tap, start: nat, c: nat, last: int)
    requires SameChart(chart, now) && Sorted(now) && Staged(now)
    requires InputStage(tap.time) != NoStage && last <= tap.time
    requires Tracks(now, LaneIndex(chart, tap.lane), start, last)
    requires Stopped(LaneNotes(chart, tap.lane), start, c, tap.time)
    ensures var found := Candidate(LaneNotes(chart, tap.lane), c, tap.time);
            && Judge(now, tap) == Verdict(found, tap)
            && Tracks(NotesAfter(now, tap), LaneIndex(chart, tap.lane), if found.Some? then c + 1 else c, tap.time)
  {
    var own, table := LaneNotes(chart, tap.lane), LaneIndex(chart, tap.lane);
    LaneLists(chart, now, tap.lane);
    StoppedAtChoice(now, own, table, tap, start, c, last);
    if Candidate(own, c, tap.time).Some? {
      assert now[table[c]].(consumed := true).id == own[c].(consumed := true).id;
      assert now[table[c]].(consumed := true).target == own[c].(consumed := true).target;
      ConsumedTracks(now, table, tap.lane, c, tap.time);
    }
  }

  /** The judgement the tool expects, given the note it matched. */
  function Verdict(found: Option<Note>, tap: Tap): Feedback
    requires found.Some? ==> Abs(tap.time - found.value.target) <= GOOD_WINDOW
  {
    match found
    case None => Feedback(tap.time, 0, NO_NOTE, tap.lane, InputStage(tap.time), Empty)
    case Some(note) =>
      var delay := tap.time - note.target;
      Feedback(tap.time, delay, note.id, tap.lane, InputStage(tap.time), if Abs(delay) <= PERFECT_WINDOW then Perfect else Good)
  }

  /** A tap on one lane leaves the cursors of all others right. */
  lemma OthersKeepTrack(chart: seq<Note>, now: seq<Note>, tap: Tap, lane: nat, c: nat, last: int)
    requires SameChart(chart, now) && lane != tap.lane && last <= tap.time
    requires Tracks(now, LaneIndex(chart, lane), c, last)
    ensures Tracks(NotesAfter(now, tap), LaneIndex(chart, lane), c, tap.time)
  {
    LaneIndexIndexes(chart, lane);
    SameChartIndexes(chart, now, lane, LaneIndex(chart, lane));
  }

  /** The first note from start on that is not more than 20 ms before the event. */
  function StopAt(own: seq<Note>, start: nat, event: int): (c: nat)
    requires start <= |own|
    ensures Stopped(own, start, c, event)
    decreases |own| - start
  {
    if start < |own| && own[start].target < event - GOOD_WINDOW then StopAt(own, start + 1, event) else start
  }

  method MatchRow(own: seq<Note>, start: nat, event: int) returns (matched: Option<Note>, next: nat)
    requires start <= |own|
    ensures matched == Candidate(own, StopAt(own, start, event), event)
    ensures next == StopAt(own, start, event) + if matched.Some? then 1 else 0
  {
    next := start;
    while next < |own| && own[next].target < event - GOOD_WINDOW
      invariant start <= next <= |own| && StopAt(own, next, event) == StopAt(own, start, event)
    {
      next := next + 1;
    }
    matched := None;
    if next < |own| {
      var candidate := own[next];
      if candidate.stage == InputStage(event) && candidate.target <= event + GOOD_WINDOW {
        matched := Some(candidate);
        next := next + 1;
      }
    }
  }

  // ----- running totals -----------------------------------------------------

  function Summaries(chart: seq<Note>, fbs: seq<Feedback>): map<Stage, ScoreSummary> {
    map[Calibration := Tally(chart, fbs, Calibration), Scored := Tally(chart, fbs, Scored)]
  }

  /** What one judgement adds to its stage's running totals. */
  function Credit(s: ScoreSummary, fb: Feedback): ScoreSummary {
    if fb.kind == Empty then s.(empty := s.empty + 1, rawScore := s.rawScore - 5, delaySum := s.delaySum + EMPTY_PENALTY)
    else
      var hit := s.(missed := s.missed - 1, delaySum := s.delaySum + Abs(fb.delay), hitDelaySum := s.hitDelaySum + Abs(fb.delay));
      if fb.kind == Perfect then hit.(perfect := hit.perfect + 1, rawScore := hit.rawScore + 2)
      else hit.(good := hit.good + 1, rawScore := hit.rawScore + 1)
  }

  /** Incremental totals are the totals of the longer list. */
  lemma CreditIsTally(chart: seq<Note>, fbs: seq<Feedback>, fb: Feedback, stage: Stage)
    requires IsHit(fb.kind) || fb.kind == Empty
    ensures Tally(chart, fbs + [fb], stage) ==
            if fb.stage == stage then Credit(Tally(chart, fbs, stage), fb) else Tally(chart, fbs, stage)
  {
    assert (fbs + [fb])[..|fbs|] == fbs;
  }

  lemma SummariesSnoc(chart: seq<Note>, fbs: seq<Feedback>, fb: Feedback)
    requires (IsHit(fb.kind) || fb.kind == Empty) && fb.stage != NoStage
    ensures fb.stage in Summaries(chart, fbs)
    ensures Summaries(chart, fbs + [fb]) == Summaries(chart, fbs)[fb.stage := Credit(Summaries(chart, fbs)[fb.stage], fb)]
  {
    CreditIsTally(chart, fbs, fb, Calibration);
    CreditIsTally(chart, fbs, fb, Scored);
  }

  // ----- the input-row loop -------------------------------------------------

  /** Everything the input loop knows after some rows, for an acceptable chart. */
  ghost predicate Replayed(lanes: nat, chart: seq<Note>, rows: seq<InputRow>, cursors: seq<nat>, last: int,
                           summaries: map<Stage, ScoreSummary>, errors: nat)
    requires InputsReadable(lanes, rows)
  {
    var taps := TapsIn(lanes, rows);
    && AllTrack(lanes, chart, Remaining(chart, taps), cursors, last)
    && summaries == Summaries(chart, Replay(chart, taps))
    && (errors == 0 <==> rows == InputRowsOf(Replay(chart, taps)))
  }

  lemma TapsInSnoc(lanes: nat, rows: seq<InputRow>, row: InputRow)
    requires InputsReadable(lanes, rows) && InputReadable(lanes, row)
    ensures InputsReadable(lanes, rows + [row]) && TapsIn(lanes, rows + [row]) == TapsIn(lanes, rows) + [TapOf(row)]
  {
  }

  lemma RowsMatchSnoc(rows: seq<InputRow>, fbs: seq<Feedback>, row: InputRow, fb: Feedback)
    requires |rows| == |fbs|
    ensures rows + [row] == InputRowsOf(fbs + [fb]) <==> rows == InputRowsOf(fbs) && row == InputRowOf(fb)
  {
    assert InputRowsOf(fbs + [fb]) == InputRowsOf(fbs) + [InputRowOf(fb)];
    if rows + [row] == InputRowsOf(fbs + [fb]) {
      assert (rows + [row])[..|rows|] == rows;
      assert (rows + [row])[|rows|] == row;
    }
  }

  lemma TrackStep(lanes: nat, chart: seq<Note>, now: seq<Note>, cursors: seq<nat>, last: int, tap: Tap, c: nat)
    requires ChartAccepted(lanes, chart) && SameChart(chart, now) && AllTrack(lanes, chart, now, cursors, last)
    requires tap.lane < lanes && InputStage(tap.time) != NoStage && last <= tap.time
    requires Stopped(LaneNotes(chart, tap.lane), cursors[tap.lane], c, tap.time)
    ensures var found := Candidate(LaneNotes(chart, tap.lane), c, tap.time);
            && Judge(now, tap) == Verdict(found, tap)
            && AllTrack(lanes, chart, NotesAfter(now, tap), cursors[tap.lane := if found.Some? then c + 1 else c], tap.time)
  {
    SameChartOrder(chart, now);
    CursorReplayMatches(chart, now, tap, cursors[tap.lane], c, last);
    forall l | 0 <= l < lanes && l != tap.lane
      ensures Tracks(NotesAfter(now, tap), LaneIndex(chart, l), cursors[l], tap.time)
    {
      OthersKeepTrack(chart, now, tap, l, cursors[l], last);
    }
  }

  lemma RowStep(lanes: nat, chart: seq<Note>, rows: seq<InputRow>, cursors: seq<nat>, last: int,
                summaries: map<Stage, ScoreSummary>, errors: nat, row: InputRow, c: nat, newErrors: nat)
    requires ChartAccepted(lanes, chart) && InputsReadable(lanes, rows) && InputReadable(lanes, row)
    requires Replayed(lanes, chart, rows, cursors, last, summaries, errors)
    requires last <= row.event && InputStage(row.event) != NoStage
    requires Stopped(LaneNotes(chart, row.lane), cursors[row.lane], c, row.event)
    requires var found := Candidate(LaneNotes(chart, row.lane), c, row.event);
             newErrors == 0 <==> errors == 0 && row == InputRowOf(Verdict(found, TapOf(row)))
    ensures var found := Candidate(LaneNotes(chart, row.lane), c, row.event);
            var stage, fb := InputStage(row.event), Verdict(found, TapOf(row));
            && InputsReadable(lanes, rows + [row])
            && stage in summaries
            && Replayed(lanes, chart, rows + [row], cursors[row.lane := if found.Some? then c + 1 else c], row.event,
                        summaries[stage := Credit(summaries[stage], fb)], newErrors)
  {
    var taps, tap := TapsIn(lanes, rows), TapOf(row);
    var fb := Verdict(Candidate(LaneNotes(chart, row.lane), c, row.event), tap);
    TapsInSnoc(lanes, rows, row);
    ReplayExtends(chart, taps, tap, 0);
    RemainingSameChart(chart, taps, 0);
    TrackStep(lanes, chart, Remaining(chart, taps), cursors, last, tap, c);
    RowsMatchSnoc(rows, Replay(chart, taps), row, fb);
    SummariesSnoc(chart, Replay(chart, taps), fb);
  }

  lemma UnreadableTail(lanes: nat, chart: seq<Note>, rows: seq<InputRow>, n: nat)
    requires n < |rows|
    requires !InputReadable(lanes, rows[n]) || InputStage(rows[n].event) == NoStage ||
             (n > 0 && rows[n].event < rows[n - 1].event)
    ensures !InputsPass(lanes, chart, rows)
  {
    if InputsReadable(lanes, rows) {
      var taps := TapsIn(lanes, rows);
      assert taps[n].time == rows[n].event;
      assert n > 0 ==> taps[n - 1].time == rows[n - 1].event;
    }
  }

  /** One row: the match, the judgement it implies, and how the claim differs from it. */
  method CheckRow(own: seq<Note>, start: nat, row: InputRow) returns (expected: Feedback, next: nat, complaints: nat)
    requires start <= |own| && InputReadable(row.lane + 1, row)
    ensures var c := StopAt(own, start, row.event);
            var found := Candidate(own, c, row.event);
            expected == Verdict(found, TapOf(row)) && next == c + (if found.Some? then 1 else 0) <= |own|
    ensures complaints == 0 <==> row == InputRowOf(expected)
  {
    var matched;
    matched, next := MatchRow(own, start, row.event);
    expected := Verdict(matched, TapOf(row));
    complaints := Complaints(row, expected);
  }

  /** Everything the input loop keeps, whatever the chart. */
  ghost predicate Looping(lanes: nat, chart: seq<Note>, laneNotes: seq<seq<Note>>, rows: seq<InputRow>, cursors: seq<nat>,
                          previous: int, summaries: map<Stage, ScoreSummary>, errors: nat) {
    && |cursors| == |laneNotes| && (forall l :: 0 <= l < |laneNotes| ==> cursors[l] <= |laneNotes[l]|)
    && Calibration in summaries && Scored in summaries
    && previous == (if rows == [] then -1 else rows[|rows| - 1].event)
    && InputsReadable(lanes, rows) && StagedTaps(TapsIn(lanes, rows)) && Nondecreasing(TapsIn(lanes, rows))
    && (ChartAccepted(lanes, chart) ==> Replayed(lanes, chart, rows, cursors, previous, summaries, errors))
  }

  lemma LoopStarts(lanes: nat, chart: seq<Note>, laneNotes: seq<seq<Note>>)
    requires Grouped(lanes, chart, laneNotes)
    ensures Looping(lanes, chart, laneNotes, [], seq(lanes, _ => 0), -1,
                    map[Calibration := Opening(NoteCount(chart, Calibration)), Scored := Opening(NoteCount(chart, Scored))], 0)
  {
    NothingReplayed(lanes, chart);
    assert TapsIn(lanes, []) == [];
  }

  lemma LoopGoesOn(lanes: nat, chart: seq<Note>, laneNotes: seq<seq<Note>>, rows: seq<InputRow>, cursors: seq<nat>,
                   previous: int, summaries: map<Stage, ScoreSummary>, errors: nat,
                   row: InputRow, expected: Feedback, next: nat, complaints: nat, c: nat)
    requires Grouped(lanes, chart, laneNotes) && Looping(lanes, chart, laneNotes, rows, cursors, previous, summaries, errors)
    requires InputReadable(lanes, row) && previous <= row.event && InputStage(row.event) != NoStage
    requires Stopped(laneNotes[row.lane], cursors[row.lane], c, row.event) && next <= |laneNotes[row.lane]|
    requires var found := Candidate(laneNotes[row.lane], c, row.event);
             expected == Verdict(found, TapOf(row)) && next == if found.Some? then c + 1 else c
    requires complaints == 0 <==> row == InputRowOf(expected)
    ensures var stage := InputStage(row.event);
            Looping(lanes, chart, laneNotes, rows + [row], cursors[row.lane := next], row.event,
                    summaries[stage := Credit(summaries[stage], expected)], errors + complaints)
  {
    InOrderSnoc(lanes, rows, row, previous);
    if ChartAccepted(lanes, chart) {
      RowStep(lanes, chart, rows, cursors, previous, summaries, errors, row, c, errors + complaints);
    }
  }

  lemma LoopBreaks(lanes: nat, chart: seq<Note>, laneNotes: seq<seq<Note>>, rows: seq<InputRow>, n: nat, cursors: seq<nat>,
                   previous: int, summaries: map<Stage, ScoreSummary>, errors: nat)
    requires n < |rows| && Looping(lanes, chart, laneNotes, rows[..n], cursors, previous, summaries, errors)
    requires !InputReadable(lanes, rows[n]) || rows[n].event < previous || InputStage(rows[n].event) == NoStage
    ensures !InputsPass(lanes, chart, rows)
  {
    if n > 0 { assert rows[..n][n - 1] == rows[n - 1]; }
    UnreadableTail(lanes, chart, rows, n);
  }

  lemma LoopEnds(lanes: nat, chart: seq<Note>, laneNotes: seq<seq<Note>>, rows: seq<InputRow>, cursors: seq<nat>,
                 previous: int, summaries: map<Stage, ScoreSummary>, errors: nat)
    requires Looping(lanes, chart, laneNotes, rows, cursors, previous, summaries, errors)
    ensures InputsReadable(lanes, rows) && Calibration in summaries && Scored in summaries
    ensures ChartAccepted(lanes, chart) ==> (errors == 0 <==> InputsPass(lanes, chart, rows))
    ensures ChartAccepted(lanes, chart) ==> summaries == Summaries(chart, Replay(chart, TapsIn(lanes, rows)))
  {
  }

  /** The input-row loop: claims are compared with the replay, never followed. */
  method ReplayInputs(lanes: nat, ghost chart: seq<Note>, laneNotes: seq<seq<Note>>, counts: map<Stage, nat>, rows: seq<InputRow>)
    returns (malformed: bool, errors: nat, summaries: map<Stage, ScoreSummary>)
    requires Grouped(lanes, chart, laneNotes) && counts == StageCounts(chart)
    ensures ChartAccepted(lanes, chart) ==> (!malformed && errors == 0 <==> InputsPass(lanes, chart, rows))
    ensures !malformed ==> InputsReadable(lanes, rows) && Calibration in summaries && Scored in summaries
    ensures ChartAccepted(lanes, chart) && !malformed ==> summaries == Summaries(chart, Replay(chart, TapsIn(lanes, rows)))
  {
    malformed, errors := false, 0;
    summaries := map[Calibration := Opening(counts[Calibration]), Scored := Opening(counts[Scored])];
    var cursors := seq(lanes, _ => 0);
    var previousEvent := -1;
    LoopStarts(lanes, chart, laneNotes);
    for index := 0 to |rows|
      invariant Looping(lanes, chart, laneNotes, rows[..index], cursors, previousEvent, summaries, errors)
    {
      var row := rows[index];
      if !InputReadable(lanes, row) || row.event < previousEvent || InputStage(row.event) == NoStage {
        LoopBreaks(lanes, chart, laneNotes, rows, index, cursors, previousEvent, summaries, errors);
        malformed := true;
        return;
      }
      assert rows[..index + 1] == rows[..index] + [row];
      var stage := InputStage(row.event);
      var expected, next, complaints := CheckRow(laneNotes[row.lane], cursors[row.lane], row);
      var c := StopAt(laneNotes[row.lane], cursors[row.lane], row.event);
      LoopGoesOn(lanes, chart, laneNotes, rows[..index], cursors, previousEvent, summaries, errors, row, expected, next, complaints, c);
      cursors := cursors[row.lane := next];
      summaries := summaries[stage := Credit(summaries[stage], expected)];
      errors := errors + complaints;
      previousEvent := row.event;
    }
    assert rows[..|rows|] == rows;
    LoopEnds(lanes, chart, laneNotes, rows, cursors, previousEvent, summaries, errors);
  }

  function Opening(notes: nat): ScoreSummary {
    ScoreSummary(notes, 0, 0, 0, notes, 0, 0, 0)
  }

  /** One complaint for each claimed column that disagrees with the replay. */
  function Complaints(row: InputRow, expected: Feedback): (n: nat)
    requires row.event == expected.event && row.lane == expected.lane
    ensures n == 0 <==> row == InputRowOf(expected)
  {
    var r := InputRowOf(expected);
    (if row.stage != r.stage then 1 else 0) + (if row.noteId != r.noteId then 1 else 0) +
    (if row.delay != r.delay then 1 else 0) + (if row.judgment != r.judgment then 1 else 0)
  }

  lemma NothingTracked(lanes: nat, chart: seq<Note>)
    requires ChartAccepted(lanes, chart)
    ensures AllTrack(lanes, chart, chart, seq(lanes, _ => 0), -1)
  {
    forall l | 0 <= l < lanes
      ensures Tracks(chart, LaneIndex(chart, l), 0, -1)
    {
      LaneIndexIndexes(chart, l);
    }
  }

  lemma NothingCounted(chart: seq<Note>)
    ensures Summaries(chart, []) ==
            map[Calibration := Opening(NoteCount(chart, Calibration)), Scored := Opening(NoteCount(chart, Scored))]
  {
  }

  lemma NothingReplayed(lanes: nat, chart: seq<Note>)
    ensures ChartAccepted(lanes, chart) ==>
              Replayed(lanes, chart, [], seq(lanes, _ => 0), -1,
                       map[Calibration := Opening(NoteCount(chart, Calibration)), Scored := Opening(NoteCount(chart, Scored))], 0)
  {
    assert TapsIn(lanes, []) == [];
    NothingCounted(chart);
    if ChartAccepted(lanes, chart) { NothingTracked(lanes, chart); }
  }

  lemma InOrderSnoc(lanes: nat, rows: seq<InputRow>, row: InputRow, last: int)
    requires InputsReadable(lanes, rows) && InputReadable(lanes, row)
    requires StagedTaps(TapsIn(lanes, rows)) && Nondecreasing(TapsIn(lanes, rows))
    requires last == (if rows == [] then -1 else rows[|rows| - 1].event) && last <= row.event && InputStage(row.event) != NoStage
    ensures InputsReadable(lanes, rows + [row])
    ensures StagedTaps(TapsIn(lanes, rows + [row])) && Nondecreasing(TapsIn(lanes, rows + [row]))
  {
    TapsInSnoc(lanes, rows, row);
    NondecreasingSnoc(TapsIn(lanes, rows), TapOf(row));
  }

  // ----- the verdict --------------------------------------------------------

  datatype Report = Malformed | Audited(errors: nat, trial: ScoreSummary, calibration: ScoreSummary)

  predicate Passed(report: Report) {
    report.Audited? && report.errors == 0
  }

  predicate TotalsReadable(t: Totals) {
    t.notes >= 0 && t.perfect >= 0 && t.good >= 0 && t.empty >= 0 && t.missed >= 0
  }

  lemma PassingTotalsReadable(lanes: nat, noteRows: seq<NoteRow>, inputRows: seq<InputRow>,
                              trial: Totals, calibration: Totals, generation: Generation)
    requires EvidencePasses(lanes, noteRows, inputRows, trial, calibration, generation)
    ensures TotalsReadable(trial) && TotalsReadable(calibration)
  {
    var chart, taps := ChartOf(lanes, noteRows), TapsIn(lanes, inputRows);
    MissedNeverUnderflows(lanes, chart, taps, Scored);
    MissedNeverUnderflows(lanes, chart, taps, Calibration);
  }

  /** The whole audit passes exactly the evidence a faithful run would leave. */
  method Verify(lanes: int, noteRows: seq<NoteRow>, inputRows: seq<InputRow>,
                trial: Totals, calibration: Totals, generation: Generation) returns (report: Report)
    ensures Passed(report) <==> lanes >= 0 && EvidencePasses(lanes, noteRows, inputRows, trial, calibration, generation)
  {
    if !InRange(lanes, 2, 16) { return Malformed; }
    var malformed, errors, notes, laneNotes, counts := CheckNotes(lanes, noteRows);
    if malformed { return Malformed; }
    var broken, complaints, summaries := ReplayInputs(lanes, notes, laneNotes, counts, inputRows);
    if broken { return Malformed; }
    errors := errors + complaints;
    if EvidencePasses(lanes, noteRows, inputRows, trial, calibration, generation) {
      PassingTotalsReadable(lanes, noteRows, inputRows, trial, calibration, generation);
    }
    if !TotalsReadable(trial) || !TotalsReadable(calibration) || generation.attempts < 0 || generation.emitted < 0 || generation.dropped < 0 {
      return Malformed;
    }
    if trial != TotalsOf(summaries[Scored]) { errors := errors + 1; }
    if calibration != TotalsOf(summaries[Calibration]) { errors := errors + 1; }
    if generation.attempts != generation.emitted + generation.dropped || generation.emitted != counts[Scored] {
      errors := errors + 1;
    }
    report := Audited(errors, summaries[Scored], summaries[Calibration]);
  }
}
