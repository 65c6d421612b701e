/** Where things are drawn: lane edges, the judgement line and note positions. */
module Geometry {

  const NOTE_LEAD: int := 1_000_000_000
  const INT_MIN: int := -0x8000_0000
  const INT_MAX: int := 0x7fff_ffff

  function JudgementY(height: nat): nat {
    height * 11 / 12
  }

  function LaneLeft(lane: nat, width: nat, lanes: nat): nat {
    if lanes == 0 then 0 else lane * width / lanes
  }

  /** Rounds to nearest, halves away from zero. */
  function Lround(x: real): int {
    if x >= 0.0 then (x + 0.5).Floor else -((-x + 0.5).Floor)
  }

  /** A note's position before rounding: the top edge one lead before its target, the
      judgement line at its target. */
  function Position(target: int, now: int, height: nat): real {
    JudgementY(height) as real * (1.0 - (target - now) as real / NOTE_LEAD as real)
  }

  function NoteY(target: int, now: int, height: nat): int {
    var p := Position(target, now, height);
    if p <= INT_MIN as real then INT_MIN else if p >= INT_MAX as real then INT_MAX else Lround(p)
  }

  /** On screen a note is drawn at the nearest row, the lower one on a tie. */
  lemma NoteYIsNearest(target: int, now: int)
    requires now - 20_000_000 <= target <= now + NOTE_LEAD
    ensures var e := NoteY(target, now, 360) as real - Position(target, now, 360); -0.5 < e <= 0.5
  {
    var p := Position(target, now, 360);
    assert JudgementY(360) == 330;
    assert p == 330.0 - 330.0 * ((target - now) as real / NOTE_LEAD as real);
  }

  /** Every note the game shows is centred on a row the tracker scans. */
  lemma VisibleRows(target: int, now: int)
    requires now - 20_000_000 <= target <= now + NOTE_LEAD
    ensures 0 <= NoteY(target, now, 360) <= 337
  {
    var p := Position(target, now, 360);
    assert JudgementY(360) == 330;
    assert p == 330.0 - 330.0 * ((target - now) as real / NOTE_LEAD as real);
    assert 0.0 <= p <= 336.6;
  }
}
