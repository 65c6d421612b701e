/** Constants, values and stage boundaries shared by the judgement engine, the
    chart generator and the independent replay.  Times are signed 64-bit
    nanoseconds, so every value stored in a TimeNs is proved to fit. */
module Core {

  const INT64_MIN: int := -0x8000_0000_0000_0000
  const INT64_MAX: int := 0x7fff_ffff_ffff_ffff
  const UINT64_MAX: int := 0xffff_ffff_ffff_ffff

  type TimeNs = x: int | INT64_MIN <= x <= INT64_MAX
  type Id = x: int | 0 <= x <= UINT64_MAX

  const MS: int := 1_000_000
  const SECOND: int := 1_000_000_000
  const PERFECT_WINDOW: int := 8 * MS
  const GOOD_WINDOW: int := 20 * MS
  const LANE_LOCK: int := 40 * MS
  const EMPTY_PENALTY: int := 100 * MS
  const MAX_LANES: nat := 16
  const NO_NOTE: Id := UINT64_MAX

  const CALIBRATION_START: int := SECOND
  const CALIBRATION_END: int := 6 * SECOND
  const CALIBRATION_TAIL_END: int := CALIBRATION_END + GOOD_WINDOW
  const SCORED_START: int := CALIBRATION_TAIL_END + 5 * SECOND
  const SCORED_END: int := SCORED_START + 50 * SECOND
  const FINISH: int := SCORED_END + GOOD_WINDOW

  datatype Stage = NoStage | Calibration | Scored

  datatype Judgment = Ignored | Perfect | Good | Empty | Invalid

  datatype Note = Note(id: Id, lane: nat, target: TimeNs, stage: Stage, consumed: bool)

  datatype Feedback = Feedback(event: TimeNs, delay: TimeNs, noteId: Id, lane: nat, stage: Stage, kind: Judgment)

  datatype ScoreSummary = ScoreSummary(notes: nat, perfect: nat, good: nat, empty: nat, missed: int,
                                       rawScore: int, delaySum: int, hitDelaySum: int)

  datatype Tap = Tap(time: TimeNs, lane: nat)

  function Abs(x: int): nat {
    if x < 0 then -x else x
  }

  function StageStart(stage: Stage): int
    requires stage != NoStage
  {
    if stage == Calibration then CALIBRATION_START else SCORED_START
  }

  function StageEnd(stage: Stage): int
    requires stage != NoStage
  {
    if stage == Calibration then CALIBRATION_END else SCORED_END
  }

  predicate TargetInStage(time: int, stage: Stage) {
    stage != NoStage && StageStart(stage) <= time < StageEnd(stage)
  }

  function InputStage(time: int): Stage {
    if CALIBRATION_START - GOOD_WINDOW <= time < CALIBRATION_TAIL_END then Calibration
    else if SCORED_START - GOOD_WINDOW <= time < FINISH then Scored
    else NoStage
  }

  /** The stage comparison made when matching a tap never rejects a note that is
      within the GOOD window of the tap, and every tap that close to a note of
      some stage is itself accounted to that stage. */
  lemma StageNeverRejects(time: int, target: int, stage: Stage)
    requires TargetInStage(target, stage)
    requires Abs(time - target) <= GOOD_WINDOW
    ensures InputStage(time) == stage
  {
  }

  /** A tap is accounted to a stage exactly when some target of that stage could be
      within the GOOD window of it; between the stages and outside both it is to none. */
  lemma StageIsExact(time: int, stage: Stage)
    requires stage != NoStage
    ensures InputStage(time) == stage <==> exists target :: TargetInStage(target, stage) && Abs(time - target) <= GOOD_WINDOW
  {
    var start, last := StageStart(stage), StageEnd(stage) - 1;
    var nearest := if time < start then start else if time > last then last else time;
    assert TargetInStage(nearest, stage);
    if target :| TargetInStage(target, stage) && Abs(time - target) <= GOOD_WINDOW {
      StageNeverRejects(time, target, stage);
    }
  }

  /** The names written to evidence tell stages and judgements apart. */
  lemma NamesAreDistinct(stage: Stage, other: Stage, kind: Judgment, judgment: Judgment)
    ensures StageName(stage) == StageName(other) <==> stage == other
    ensures JudgmentName(kind) == JudgmentName(judgment) <==> kind == judgment
  {
    assert |"calibration"| == 11 && |"scored"| == 6 && |"none"| == 4;
    assert |"perfect"| == 7 && |"good"| == 4 && |"empty"| == 5 && |"invalid"| == 7 && |"ignored"| == 7;
    assert "invalid"[1] != "ignored"[1] && "perfect"[0] != "invalid"[0] && "perfect"[0] != "ignored"[0];
  }

  function IsHit(kind: Judgment): bool {
    kind == Perfect || kind == Good
  }

  function StageName(stage: Stage): string {
    match stage
    case Calibration => "calibration"
    case Scored => "scored"
    case NoStage => "none"
  }

  function JudgmentName(kind: Judgment): string {
    match kind
    case Perfect => "perfect"
    case Good => "good"
    case Empty => "empty"
    case Invalid => "invalid"
    case Ignored => "ignored"
  }
}
