/** When the tracker keeps notes apart: rows, spacing, jitter and threshold together. */
module TrackAssociation {
  import Core
  import opened Options
  import opened TrackerRules
  import opened Geometry

  const SPACING: int := 40_000_000
  const HALF_PIXEL: real := 500.0 / 330.0

  /** The largest jitter, in nanoseconds, that never splits a note's track. */
  const JITTER_LIMIT: int := 14_969_696

  /** One note drawn at server time now and received delay later, client clock. */
  datatype Sight = Sight(note: nat, now: int, delay: int)

  function Ms(ns: int): real {
    ns as real / 1000000.0
  }

  predicate Spaced(targets: seq<int>) {
    forall i, j :: 0 <= i < j < |targets| ==> targets[i] + SPACING <= targets[j]
  }

  predicate Genuine(targets: seq<int>, s: Sight, base: int, jitter: int) {
    && s.note < |targets| && s.now - 20_000_000 <= targets[s.note] <= s.now + NOTE_LEAD
    && base <= s.delay <= base + jitter
  }

  predicate AllGenuine(targets: seq<int>, sights: seq<Sight>, base: int, jitter: int) {
    forall j :: 0 <= j < |sights| ==> Genuine(targets, sights[j], base, jitter)
  }

  function Receipt(s: Sight): real {
    Ms(s.now + s.delay)
  }

  function Time(targets: seq<int>, s: Sight): real
    requires s.note < |targets|
  {
    TargetOf(NoteY(targets[s.note], s.now, 360), Receipt(s))
  }

  predicate SeenLate(targets: seq<int>, s: Sight)
    requires s.note < |targets|
  {
    Time(targets, s) < Receipt(s) - 8.0
  }

  /** The tracker's lane after these sights, in the order received. */
  function Tracked(targets: seq<int>, sights: seq<Sight>): Lane
    requires forall j :: 0 <= j < |sights| ==> sights[j].note < |targets|
  {
    if sights == [] then Lane([], 0)
    else
      var n := |sights| - 1;
      Observe(Tracked(targets, sights[..n]), n, Time(targets, sights[n]), Receipt(sights[n]))
  }

  /** Half a pixel and the jitter around a note's target plus the base delay. */
  predicate Within(targets: seq<int>, k: nat, base: int, jitter: int, x: real)
    requires k < |targets|
  {
    Ms(targets[k] + base) - HALF_PIXEL <= x < Ms(targets[k] + base + jitter) + HALF_PIXEL
  }

  predicate FirstSeenInTime(targets: seq<int>, sights: seq<Sight>, k: nat)
    requires forall j :: 0 <= j < |sights| ==> sights[j].note < |targets|
  {
    exists j :: 0 <= j < |sights| && sights[j].note == k && !SeenLate(targets, sights[j])
  }

  predicate Ascending(owners: seq<nat>) {
    forall i, j :: 0 <= i < j < |owners| ==> owners[i] < owners[j]
  }

  /** Track i belongs to note owners[i] and no other. */
  predicate Owned(targets: seq<int>, tracks: seq<Track>, owners: seq<nat>, base: int, jitter: int) {
    && |owners| == |tracks| && Ascending(owners)
    && forall i :: 0 <= i < |owners| ==>
         owners[i] < |targets| && tracks[i].observations >= 1 && Within(targets, owners[i], base, jitter, tracks[i].target)
  }

  // ----- windows ----------------------------------------------------------------

  lemma SightIsWithin(targets: seq<int>, s: Sight, base: int, jitter: int)
    requires Genuine(targets, s, base, jitter)
    ensures Within(targets, s.note, base, jitter, Time(targets, s))
  {
    var t := targets[s.note];
    NoteYIsNearest(t, s.now);
    var y := NoteY(t, s.now, 360);
    var e := y as real - Position(t, s.now, 360);
    assert JudgementY(360) == 330;
    assert Position(t, s.now, 360) == 330.0 - 330.0 * ((t - s.now) as real / NOTE_LEAD as real);
    assert (330 - y) as real == 330.0 * ((t - s.now) as real / NOTE_LEAD as real) - e;
    assert (330 - y) as real * 1000.0 / 330.0 == Ms(t - s.now) - e * 1000.0 / 330.0;
    assert Time(targets, s) == Ms(t + s.delay) - e * 1000.0 / 330.0;
  }

  lemma WindowsAreApart(targets: seq<int>, k: nat, l: nat, base: int, jitter: int, x: real, y: real)
    requires Spaced(targets) && k < |targets| && l < |targets| && 0 <= jitter <= JITTER_LIMIT
    requires Within(targets, k, base, jitter, x) && Within(targets, l, base, jitter, y)
    ensures k == l ==> Near(x, y)
    ensures k < l ==> x + THRESHOLD < y
  {
    if k < l { assert targets[k] + SPACING <= targets[l]; }
    assert Ms(jitter) + 2.0 * HALF_PIXEL < THRESHOLD;
    assert Ms(targets[k] + base + jitter) == Ms(targets[k] + base) + Ms(jitter);
    if k < l { assert Ms(targets[l] + base) >= Ms(targets[k] + base) + 40.0; }
  }

  // ----- one observation ----------------------------------------------------------

  lemma MatchIsTheNearOne(tracks: seq<Track>, x: real, i: nat)
    requires Increasing(tracks) && i < |tracks|
    requires forall j :: 0 <= j < |tracks| ==> (Near(tracks[j].target, x) <==> j == i)
    ensures Match(tracks, x) == Some(i)
  {
    var f := LowerBound(tracks, x);
    if tracks[i].target >= x {
      assert f <= i;
      assert Near(tracks[f].target, x);
    } else {
      assert i <= f - 1;
      assert Near(tracks[f - 1].target, x);
    }
  }

  lemma OwnedIsIncreasing(targets: seq<int>, tracks: seq<Track>, owners: seq<nat>, base: int, jitter: int)
    requires Spaced(targets) && 0 <= jitter <= JITTER_LIMIT && Owned(targets, tracks, owners, base, jitter)
    ensures Increasing(tracks)
  {
    forall i, j | 0 <= i < j < |tracks|
      ensures tracks[i].target < tracks[j].target
    {
      WindowsAreApart(targets, owners[i], owners[j], base, jitter, tracks[i].target, tracks[j].target);
    }
  }

  lemma NearOwner(targets: seq<int>, tracks: seq<Track>, owners: seq<nat>, base: int, jitter: int, k: nat, x: real, j: nat)
    requires Spaced(targets) && 0 <= jitter <= JITTER_LIMIT && Owned(targets, tracks, owners, base, jitter)
    requires k < |targets| && Within(targets, k, base, jitter, x) && j < |tracks|
    ensures Near(tracks[j].target, x) <==> owners[j] == k
    ensures owners[j] < k ==> tracks[j].target < x
    ensures owners[j] > k ==> tracks[j].target > x
  {
    WindowsAreApart(targets, owners[j], k, base, jitter, tracks[j].target, x);
    WindowsAreApart(targets, k, owners[j], base, jitter, x, tracks[j].target);
  }

  lemma KnownNote(targets: seq<int>, lane: Lane, owners: seq<nat>, base: int, jitter: int, k: nat, x: real, receipt: real, id: nat, i: nat)
    requires Spaced(targets) && 0 <= jitter <= JITTER_LIMIT && Owned(targets, lane.tracks, owners, base, jitter)
    requires k < |targets| && Within(targets, k, base, jitter, x) && i < |owners| && owners[i] == k
    ensures Owned(targets, Observe(lane, id, x, receipt).tracks, owners, base, jitter)
  {
    OwnedIsIncreasing(targets, lane.tracks, owners, base, jitter);
    forall j | 0 <= j < |lane.tracks|
      ensures Near(lane.tracks[j].target, x) <==> j == i
    {
      NearOwner(targets, lane.tracks, owners, base, jitter, k, x, j);
    }
    MatchIsTheNearOne(lane.tracks, x, i);
    MeanIsBetween(lane.tracks[i].target, x, lane.tracks[i].observations);
    var after := Averaged(lane.tracks[i], x, receipt);
    assert Within(targets, k, base, jitter, after.target);
    assert after.observations >= 1;
    assert Observe(lane, id, x, receipt).tracks == lane.tracks[i := after];
  }

  lemma NobodyNear(targets: seq<int>, tracks: seq<Track>, owners: seq<nat>, base: int, jitter: int, k: nat, x: real)
    requires Spaced(targets) && 0 <= jitter <= JITTER_LIMIT && Owned(targets, tracks, owners, base, jitter)
    requires k < |targets| && Within(targets, k, base, jitter, x) && k !in owners
    ensures Match(tracks, x).None?
    ensures forall j :: 0 <= j < |owners| ==> owners[j] != k && (owners[j] < k <==> j < LowerBound(tracks, x))
  {
    forall j | 0 <= j < |tracks|
      ensures !Near(tracks[j].target, x) && owners[j] != k && (owners[j] < k <==> tracks[j].target < x)
    {
      NearOwner(targets, tracks, owners, base, jitter, k, x, j);
    }
    OwnedIsIncreasing(targets, tracks, owners, base, jitter);
  }

  /** A new track put where its note belongs. */
  lemma InsertOwner(targets: seq<int>, tracks: seq<Track>, owners: seq<nat>, base: int, jitter: int, f: nat, k: nat, t: Track)
    requires Owned(targets, tracks, owners, base, jitter) && f <= |owners|
    requires k < |targets| && t.observations >= 1 && Within(targets, k, base, jitter, t.target)
    requires forall j :: 0 <= j < |owners| ==> owners[j] != k && (owners[j] < k <==> j < f)
    ensures Owned(targets, tracks[..f] + [t] + tracks[f..], owners[..f] + [k] + owners[f..], base, jitter)
  {
    var os, ts := owners[..f] + [k] + owners[f..], tracks[..f] + [t] + tracks[f..];
    forall i | 0 <= i < |os|
      ensures os[i] < |targets| && ts[i].observations >= 1 && Within(targets, os[i], base, jitter, ts[i].target)
    {
      if i < f { assert os[i] == owners[i] && ts[i] == tracks[i]; }
      if i > f { assert os[i] == owners[i - 1] && ts[i] == tracks[i - 1]; }
    }
  }

  lemma NewNote(targets: seq<int>, lane: Lane, owners: seq<nat>, base: int, jitter: int, k: nat, x: real, receipt: real, id: nat) returns (grown: seq<nat>)
    requires Spaced(targets) && 0 <= jitter <= JITTER_LIMIT && Owned(targets, lane.tracks, owners, base, jitter)
    requires k < |targets| && Within(targets, k, base, jitter, x) && k !in owners
    ensures Owned(targets, Observe(lane, id, x, receipt).tracks, grown, base, jitter)
    ensures forall o :: o in grown <==> o in owners || (o == k && x >= receipt - 8.0)
  {
    var f := LowerBound(lane.tracks, x);
    NobodyNear(targets, lane.tracks, owners, base, jitter, k, x);
    if Ignored(x, receipt) {
      grown := owners;
    } else {
      grown := owners[..f] + [k] + owners[f..];
      assert owners == owners[..f] + owners[f..];
      InsertOwner(targets, lane.tracks, owners, base, jitter, f, k, Track(id, x, 1, receipt, receipt, false));
    }
  }

  // ----- any sequence of sights ------------------------------------------------------

  /** A note has exactly one track if some sight of it was no more than 8 ms late, and
      none otherwise; tracks are in note order, one note each, on its window. */
  ghost predicate Associated(targets: seq<int>, sights: seq<Sight>, base: int, jitter: int)
    requires forall j :: 0 <= j < |sights| ==> sights[j].note < |targets|
  {
    exists owners :: OwnersAre(targets, sights, owners, base, jitter)
  }

  ghost predicate OwnersAre(targets: seq<int>, sights: seq<Sight>, owners: seq<nat>, base: int, jitter: int)
    requires forall j :: 0 <= j < |sights| ==> sights[j].note < |targets|
  {
    && Owned(targets, Tracked(targets, sights).tracks, owners, base, jitter)
    && forall k: nat :: k in owners <==> FirstSeenInTime(targets, sights, k)
  }

  lemma SeenOneMore(targets: seq<int>, sights: seq<Sight>, k: nat)
    requires sights != [] && forall j :: 0 <= j < |sights| ==> sights[j].note < |targets|
    ensures var n := |sights| - 1;
            FirstSeenInTime(targets, sights, k) <==>
            FirstSeenInTime(targets, sights[..n], k) || (sights[n].note == k && !SeenLate(targets, sights[n]))
  {
    var n := |sights| - 1;
    if FirstSeenInTime(targets, sights[..n], k) {
      var j :| 0 <= j < n && sights[..n][j].note == k && !SeenLate(targets, sights[..n][j]);
      assert sights[j].note == k && !SeenLate(targets, sights[j]);
    }
    if FirstSeenInTime(targets, sights, k) {
      var j :| 0 <= j < |sights| && sights[j].note == k && !SeenLate(targets, sights[j]);
      if j < n { assert sights[..n][j].note == k && !SeenLate(targets, sights[..n][j]); }
    }
  }

  lemma {:induction false} SightsAssociate(targets: seq<int>, sights: seq<Sight>, base: int, jitter: int) returns (owners: seq<nat>)
    requires Spaced(targets) && 0 <= jitter <= JITTER_LIMIT && AllGenuine(targets, sights, base, jitter)
    ensures OwnersAre(targets, sights, owners, base, jitter)
  {
    if sights == [] {
      owners := [];
    } else {
      var n := |sights| - 1;
      var before := SightsAssociate(targets, sights[..n], base, jitter);
      var k, x, lane := sights[n].note, Time(targets, sights[n]), Tracked(targets, sights[..n]);
      SightIsWithin(targets, sights[n], base, jitter);
      if k in before {
        var i :| 0 <= i < |before| && before[i] == k;
        KnownNote(targets, lane, before, base, jitter, k, x, Receipt(sights[n]), n, i);
        owners := before;
      } else {
        owners := NewNote(targets, lane, before, base, jitter, k, x, Receipt(sights[n]), n);
      }
      forall o: nat
        ensures o in owners <==> FirstSeenInTime(targets, sights, o)
      {
        SeenOneMore(targets, sights, o);
      }
    }
  }

  // ----- the threshold is exact --------------------------------------------------------

  /** Targets a chart can hold: each in a stage, one lane lock apart. */
  predicate Charted(targets: seq<int>) {
    Spaced(targets) && forall i :: 0 <= i < |targets| ==>
      Core.TargetInStage(targets[i], Core.Calibration) || Core.TargetInStage(targets[i], Core.Scored)
  }

  ghost predicate AlwaysAssociates(jitter: int) {
    forall targets, sights, base ::
      Charted(targets) && AllGenuine(targets, sights, base, jitter) ==> Associated(targets, sights, base, jitter)
  }

  /** The first note a chart can hold, a second in. */
  const FIRST: int := Core.CALIBRATION_START

  /** Fifty milliseconds out, and three later with the delay at its largest: both draw
      the note on row 314. */
  function Split(base: int): seq<Sight> {
    [Sight(0, FIRST - 50_000_000, base), Sight(0, FIRST - 46_969_697, base + JITTER_LIMIT + 1)]
  }

  /** With one nanosecond more jitter one note can get two tracks. */
  lemma JitterSplitsTrack(base: int)
    ensures Charted([FIRST]) && AllGenuine([FIRST], Split(base), base, JITTER_LIMIT + 1)
    ensures |Tracked([FIRST], Split(base)).tracks| == 2
  {
    var s := Split(base);
    assert JudgementY(360) == 330;
    assert Position(FIRST, FIRST - 50_000_000, 360) == 330.0 * (1.0 - 50000000.0 / 1000000000.0);
    assert Position(FIRST, FIRST - 46_969_697, 360) == 330.0 * (1.0 - 46969697.0 / 1000000000.0);
    assert NoteY(FIRST, FIRST - 50_000_000, 360) == 314 == NoteY(FIRST, FIRST - 46_969_697, 360);
    assert Time([FIRST], s[1]) - Time([FIRST], s[0]) == THRESHOLD;
    assert s[..1] == [s[0]] && s[..1][..0] == [];
    assert Tracked([FIRST], s[..1]).tracks == [Track(0, Time([FIRST], s[0]), 1, Receipt(s[0]), Receipt(s[0]), false)];
    assert Tracked([FIRST], s) == Observe(Tracked([FIRST], s[..1]), 1, Time([FIRST], s[1]), Receipt(s[1]));
  }

  /** The 18 ms threshold, the 40 ms lane lock and 330 rows a second keep every note's
      track whole and separate for all charts and sequences of sights exactly up to this
      jitter. */
  lemma JitterLimitIsExact(jitter: nat)
    ensures AlwaysAssociates(jitter) <==> jitter <= JITTER_LIMIT
  {
    if jitter <= JITTER_LIMIT {
      forall targets, sights, base | Charted(targets) && AllGenuine(targets, sights, base, jitter)
        ensures Associated(targets, sights, base, jitter)
      {
        var owners := SightsAssociate(targets, sights, base, jitter);
      }
    } else {
      JitterSplitsTrack(0);
      assert Charted([FIRST]) && AllGenuine([FIRST], Split(0), 0, jitter);
      forall owners
        ensures !Owned([FIRST], Tracked([FIRST], Split(0)).tracks, owners, 0, jitter)
      {
        if |owners| == 2 && owners[0] < owners[1] { assert owners[1] >= 1; }
      }
      assert !Associated([FIRST], Split(0), 0, jitter);
    }
  }
}
