/** What the replay tool must accept, stated over the rows the benchmark writes,
    and its agreement with the engine in both directions. */
module ReplayRules {
  import opened Options
  import opened Core
  import opened Judging
  import opened Scoring
  import opened EngineRules

  datatype NoteRow = NoteRow(id: int, lane: int, target: int, stage: string)

  datatype InputRow = InputRow(event: int, lane: int, noteId: Option<int>, stage: string, judgment: string, delay: int)

  datatype Totals = Totals(notes: int, perfect: int, good: int, empty: int, missed: int,
                           rawScore: int, delaySum: int, hitDelaySum: int)

  datatype Generation = Generation(attempts: int, emitted: int, dropped: int)

  // ----- rows the benchmark writes ------------------------------------------

  function NoteRowOf(note: Note): NoteRow {
    NoteRow(note.id, note.lane, note.target, StageName(note.stage))
  }

  function NoteRowsOf(notes: seq<Note>): seq<NoteRow> {
    seq(|notes|, i requires 0 <= i < |notes| => NoteRowOf(notes[i]))
  }

  function InputRowOf(fb: Feedback): InputRow {
    InputRow(fb.event, fb.lane, if fb.noteId == NO_NOTE then None else Some(fb.noteId),
             StageName(fb.stage), JudgmentName(fb.kind), fb.delay)
  }

  function InputRowsOf(fbs: seq<Feedback>): seq<InputRow> {
    seq(|fbs|, k requires 0 <= k < |fbs| => InputRowOf(fbs[k]))
  }

  function TotalsOf(s: ScoreSummary): Totals {
    Totals(s.notes, s.perfect, s.good, s.empty, s.missed, s.rawScore, s.delaySum, s.hitDelaySum)
  }

  // ----- reading rows back --------------------------------------------------

  predicate InRange(x: int, low: int, high: int) {
    low <= x <= high
  }

  function StageOf(name: string): Stage {
    if name == "calibration" then Calibration else if name == "scored" then Scored else NoStage
  }

  predicate NoteReadable(lanes: int, row: NoteRow) {
    InRange(row.id, 0, UINT64_MAX - 1) && InRange(row.lane, 0, lanes - 1) && InRange(row.target, 0, INT64_MAX) &&
    StageOf(row.stage) != NoStage
  }

  predicate NotesReadable(lanes: int, rows: seq<NoteRow>) {
    forall i :: 0 <= i < |rows| ==> NoteReadable(lanes, rows[i])
  }

  function NoteOf(row: NoteRow): Note
    requires 0 <= row.id <= UINT64_MAX && 0 <= row.lane && INT64_MIN <= row.target <= INT64_MAX
  {
    Note(row.id, row.lane, row.target, StageOf(row.stage), false)
  }

  function ChartOf(lanes: int, rows: seq<NoteRow>): seq<Note>
    requires NotesReadable(lanes, rows)
  {
    seq(|rows|, i requires 0 <= i < |rows| => NoteOf(rows[i]))
  }

  predicate InputReadable(lanes: int, row: InputRow) {
    && InRange(row.event, 0, INT64_MAX) && InRange(row.lane, 0, lanes - 1)
    && InRange(row.delay, INT64_MIN, INT64_MAX)
    && (row.noteId.Some? ==> InRange(row.noteId.value, 0, UINT64_MAX - 1))
  }

  predicate InputsReadable(lanes: int, rows: seq<InputRow>) {
    forall k :: 0 <= k < |rows| ==> InputReadable(lanes, rows[k])
  }

  function TapOf(row: InputRow): Tap
    requires INT64_MIN <= row.event <= INT64_MAX && 0 <= row.lane
  {
    Tap(row.event, row.lane)
  }

  function TapsIn(lanes: int, rows: seq<InputRow>): seq<Tap>
    requires InputsReadable(lanes, rows)
  {
    seq(|rows|, k requires 0 <= k < |rows| => TapOf(rows[k]))
  }

  // ----- the accepted evidence ----------------------------------------------

  predicate ConsecutiveIds(notes: seq<Note>) {
    forall i :: 0 <= i < |notes| ==> notes[i].id == i
  }

  predicate Generated(lanes: nat, notes: seq<Note>) {
    ConsecutiveIds(notes) && ChartAccepted(lanes, notes)
  }

  predicate NotesPass(lanes: nat, rows: seq<NoteRow>) {
    NotesReadable(lanes, rows) && Generated(lanes, ChartOf(lanes, rows))
  }

  predicate InputsPass(lanes: nat, chart: seq<Note>, rows: seq<InputRow>) {
    && InputsReadable(lanes, rows)
    && StagedTaps(TapsIn(lanes, rows)) && Nondecreasing(TapsIn(lanes, rows))
    && rows == InputRowsOf(Replay(chart, TapsIn(lanes, rows)))
  }

  predicate EvidencePasses(lanes: nat, noteRows: seq<NoteRow>, inputRows: seq<InputRow>,
                           trial: Totals, calibration: Totals, generation: Generation) {
    && 2 <= lanes <= MAX_LANES
    && NotesPass(lanes, noteRows)
    && var chart := ChartOf(lanes, noteRows);
       InputsPass(lanes, chart, inputRows) &&
       var fbs := Replay(chart, TapsIn(lanes, inputRows));
       && trial == TotalsOf(Tally(chart, fbs, Scored))
       && calibration == TotalsOf(Tally(chart, fbs, Calibration))
       && generation.attempts == generation.emitted + generation.dropped && generation.dropped >= 0
       && generation.emitted == NoteCount(chart, Scored)
  }

  // ----- soundness and completeness -----------------------------------------

  /** Evidence that passes is what an engine really produces: built from those
      notes and fed those taps it stays valid and logs exactly those rows and totals. */
  lemma ReplayIsSound(lanes: nat, noteRows: seq<NoteRow>, inputRows: seq<InputRow>,
                      trial: Totals, calibration: Totals, generation: Generation, maxEvents: nat)
    requires EvidencePasses(lanes, noteRows, inputRows, trial, calibration, generation)
    requires |inputRows| <= maxEvents
    ensures var chart := ChartOf(lanes, noteRows);
            var v := Run(Initial(lanes, maxEvents, chart), TapsIn(lanes, inputRows));
            && ChartAccepted(lanes, chart) && v.reason.None?
            && InputRowsOf(v.records) == inputRows
            && TotalsOf(Tally(v.notes, v.records, Scored)) == trial
            && TotalsOf(Tally(v.notes, v.records, Calibration)) == calibration
            && generation.emitted == |OfStage(chart, Scored)| && generation.dropped >= 0
            && generation.attempts == generation.emitted + generation.dropped
  {
    CountsNotes(ChartOf(lanes, noteRows), Scored);
    var chart, taps := ChartOf(lanes, noteRows), TapsIn(lanes, inputRows);
    var v := Run(Initial(lanes, maxEvents, chart), taps);
    AllAccountable(taps, lanes);
    ValidRunLogsEverything(lanes, maxEvents, chart, taps);
    InitialIsSound(lanes, maxEvents, chart);
    RunIsSound(Initial(lanes, maxEvents, chart), chart, taps);
    assert TapsOf(v.records) == taps;
    SameTally(v, chart, Scored);
    SameTally(v, chart, Calibration);
  }

  lemma {:induction false} AllAccountable(taps: seq<Tap>, lanes: nat)
    requires StagedTaps(taps) && InLanes(taps, lanes)
    ensures Accountable(taps, lanes) == taps
  {
    if taps != [] {
      var n := |taps| - 1;
      assert taps[n].lane < lanes && InputStage(taps[n].time) != NoStage;
      AllAccountable(taps[..n], lanes);
      assert taps == taps[..n] + [taps[n]];
    }
  }

  lemma ChartRoundTrip(lanes: nat, chart: seq<Note>)
    requires ChartAccepted(lanes, chart)
    ensures NotesReadable(lanes, NoteRowsOf(chart)) && ChartOf(lanes, NoteRowsOf(chart)) == chart
  {
    var rows := NoteRowsOf(chart);
    forall i | 0 <= i < |rows|
      ensures NoteReadable(lanes, rows[i]) && NoteOf(rows[i]) == chart[i]
    {
      assert TargetInStage(chart[i].target, chart[i].stage);
    }
  }

  lemma TapsRoundTrip(v: View, chart: seq<Note>)
    requires Sound(v, chart)
    ensures InputsReadable(v.lanes, InputRowsOf(v.records))
    ensures TapsIn(v.lanes, InputRowsOf(v.records)) == TapsOf(v.records)
  {
    var taps, rows := TapsOf(v.records), InputRowsOf(v.records);
    forall k | 0 <= k < |rows|
      ensures InputReadable(v.lanes, rows[k])
    {
      assert InputStage(taps[k].time) != NoStage;
      assert taps[k].lane < v.lanes;
    }
  }

  /** Whatever an engine logs on a generated chart, the replay tool accepts. */
  lemma ReplayIsComplete(v: View, chart: seq<Note>, generation: Generation)
    requires 2 <= v.lanes && Sound(v, chart) && Generated(v.lanes, chart)
    requires generation.attempts == generation.emitted + generation.dropped && generation.dropped >= 0
    requires generation.emitted == NoteCount(chart, Scored)
    ensures EvidencePasses(v.lanes, NoteRowsOf(chart), InputRowsOf(v.records),
                           TotalsOf(Tally(v.notes, v.records, Scored)),
                           TotalsOf(Tally(v.notes, v.records, Calibration)), generation)
  {
    ChartRoundTrip(v.lanes, chart);
    TapsRoundTrip(v, chart);
    SameTally(v, chart, Scored);
    SameTally(v, chart, Calibration);
  }
}
