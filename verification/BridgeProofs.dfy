/** What the scheduler promises over whole runs: conservation, timing and order. */
module BridgeProofs {
  import opened Options
  import opened BridgeRules

  // ----- what the log says --------------------------------------------------------

  /** What was proposed, in order: id k + 1 is at position k. */
  function Plans(events: seq<Log>): seq<Entry> {
    if events == [] then []
    else
      var last := events[|events| - 1];
      Plans(events[..|events| - 1]) + if last.Proposed? then [Entry(last.due, last.id, last.lane)] else []
  }

  /** The ids whose story has ended: sent, dropped late, or abandoned at close. */
  function Settled(events: seq<Log>): multiset<nat> {
    if events == [] then multiset{}
    else
      var last := events[|events| - 1];
      Settled(events[..|events| - 1]) + if Settles(last) then multiset{last.id} else multiset{}
  }

  predicate Settles(l: Log) {
    l.Sent? || l.Late? || l.Abandoned?
  }

  lemma LogGrows(events: seq<Log>, l: Log)
    ensures Plans(events + [l]) == Plans(events) + (if l.Proposed? then [Entry(l.due, l.id, l.lane)] else [])
    ensures Settled(events + [l]) == Settled(events) + (if Settles(l) then multiset{l.id} else multiset{})
  {
    assert (events + [l])[..|events|] == events;
  }

  function Everyone(n: nat): multiset<nat> {
    if n == 0 then multiset{} else Everyone(n - 1) + multiset{n}
  }

  lemma {:induction false} EveryoneOnce(n: nat)
    ensures |Everyone(n)| == n
    ensures forall id :: Everyone(n)[id] == if 1 <= id <= n then 1 else 0
  {
    if n > 0 { EveryoneOnce(n - 1); }
  }

  // ----- the invariant ---------------------------------------------------------------

  /** Proposals are numbered 1, 2, 3, ... in the log. */
  predicate Numbered(b: Bridge) {
    && |Plans(b.events)| == b.nextAction
    && (forall x :: 0 <= x < |b.events| && b.events[x].Proposed? ==> b.events[x].id == |Plans(b.events[..x])| + 1)
  }

  predicate QueueOk(b: Bridge) {
    && Sorted(b.pending)
    && (forall e :: e in b.pending ==> 1 <= e.id <= |Plans(b.events)| && Plans(b.events)[e.id - 1] == e)
  }

  /** Ids proposed but neither pending nor settled: at most the given number. */
  predicate Conserved(b: Bridge, missing: nat) {
    && Ids(b.pending) + Settled(b.events) <= Everyone(b.nextAction)
    && b.nextAction <= |b.pending| + |Settled(b.events)| + missing
  }

  /** A send at log index x is of a proposed action, on time, and by the clock; a late
      drop is of a proposed action more than 20 ms past its due time by the clock. */
  predicate SendOk(events: seq<Log>, x: nat, clock: int)
    requires x < |events|
  {
    && (events[x].Sent? ==>
          && 1 <= events[x].id <= |Plans(events[..x])| <= |Plans(events)|
          && Plans(events)[events[x].id - 1] == Entry(DueAt(events, x), events[x].id, events[x].lane)
          && DueAt(events, x) <= events[x].at <= DueAt(events, x) + LATE && events[x].at <= clock)
    && (events[x].Late? ==> LateOk(Plans(events), events[x], clock))
  }

  predicate LateOk(plans: seq<Entry>, l: Log, clock: int)
    requires l.Late?
  {
    1 <= l.id <= |plans| && l.lateness > LATE && plans[l.id - 1].due + l.lateness <= clock
  }

  function DueAt(events: seq<Log>, x: nat): int
    requires x < |events| && events[x].Sent?
  {
    events[x].at - events[x].lateness
  }

  predicate SendsOk(events: seq<Log>, clock: int) {
    forall x :: 0 <= x < |events| ==> SendOk(events, x, clock)
  }

  /** Entry e was not waiting when the send at index x was made, or belongs after it. */
  predicate Behind(events: seq<Log>, x: nat, e: Entry)
    requires x < |events| && events[x].Sent?
  {
    Less(e, Entry(DueAt(events, x), events[x].id, 0)) ==> e.id > |Plans(events[..x])|
  }

  predicate Frontier(b: Bridge) {
    forall x, e :: 0 <= x < |b.events| && b.events[x].Sent? && e in b.pending ==> Behind(b.events, x, e)
  }

  /** Two sends in log order: in time order, and ordered by (due, id) unless the
      second was proposed only after the first was sent. */
  predicate PairOk(events: seq<Log>, x: nat, y: nat)
    requires x < y < |events|
  {
    events[x].Sent? && events[y].Sent? ==>
      events[x].at <= events[y].at && Behind(events, x, Entry(DueAt(events, y), events[y].id, 0))
  }

  predicate PairsOk(events: seq<Log>) {
    forall x, y :: 0 <= x < y < |events| ==> PairOk(events, x, y)
  }

  predicate Inv(b: Bridge, missing: nat, clock: int) {
    && Numbered(b) && QueueOk(b) && Conserved(b, missing)
    && SendsOk(b.events, clock) && Frontier(b) && PairsOk(b.events)
    && (b.closed ==> b.pending == []) && StoppedFirst(b)
  }

  /** Nothing is abandoned before the bridge is told to stop. */
  predicate StoppedFirst(b: Bridge) {
    forall x :: 0 <= x < |b.events| && b.events[x].Abandoned? ==> b.stopped
  }

  // ----- appending to the log ----------------------------------------------------------

  lemma PrefixStays(events: seq<Log>, l: Log, x: nat)
    requires x <= |events|
    ensures (events + [l])[..x] == events[..x]
  {
  }

  /** Appending anything but a send keeps what is known about sends. */
  lemma SendsKept(events: seq<Log>, l: Log, clock: int, later: int)
    requires SendsOk(events, clock) && PairsOk(events) && !l.Sent? && clock <= later
    requires l.Late? ==> LateOk(Plans(events), l, later)
    ensures SendsOk(events + [l], later) && PairsOk(events + [l])
  {
    LogGrows(events, l);
    forall x | 0 <= x < |events| + 1
      ensures SendOk(events + [l], x, later)
    {
      PrefixStays(events, l, x);
      if x < |events| { assert SendOk(events, x, clock); }
    }
    forall x, y | 0 <= x < y < |events| + 1
      ensures PairOk(events + [l], x, y)
    {
      PrefixStays(events, l, x);
      if y < |events| { assert PairOk(events, x, y); }
    }
  }

  lemma FrontierKept(b: Bridge, t: Bridge, l: Log)
    requires Frontier(b) && !l.Sent? && t.events == b.events + [l]
    requires forall e :: e in t.pending ==> e in b.pending
    ensures Frontier(t)
  {
    forall x, e | 0 <= x < |t.events| && t.events[x].Sent? && e in t.pending
      ensures Behind(t.events, x, e)
    {
      PrefixStays(b.events, l, x);
      assert Behind(b.events, x, e);
    }
  }

  lemma NumberedKept(b: Bridge, t: Bridge, l: Log)
    requires Numbered(b) && t.events == b.events + [l]
    requires if l.Proposed? then l.id == t.nextAction == b.nextAction + 1 else t.nextAction == b.nextAction
    ensures Numbered(t)
  {
    LogGrows(b.events, l);
    forall x | 0 <= x < |t.events| && t.events[x].Proposed?
      ensures t.events[x].id == |Plans(t.events[..x])| + 1
    {
      PrefixStays(b.events, l, x);
    }
    assert t.events[..|b.events|] == b.events;
  }

  // ----- each step keeps the invariant --------------------------------------------------

  /** A note in the log, with the queue as it was. */
  lemma NoteKeeps(b: Bridge, t: Bridge, l: Log, missing: nat, clock: int, later: int)
    requires Inv(b, missing, clock) && clock <= later && !l.Proposed? && !Settles(l)
    requires t.events == b.events + [l] && t.pending == b.pending && t.nextAction == b.nextAction && t.closed == b.closed
    requires b.stopped ==> t.stopped
    ensures Inv(t, missing, later)
  {
    LogGrows(b.events, l);
    NumberedKept(b, t, l);
    SendsKept(b.events, l, clock, later);
    FrontierKept(b, t, l);
  }

  /** The first entry leaves the queue, settled without being sent. */
  lemma SettleFirstKeeps(b: Bridge, t: Bridge, l: Log, missing: nat, clock: int)
    requires Inv(b, missing, clock) && b.pending != [] && (l.Late? || l.Abandoned?) && l.id == b.pending[0].id
    requires l.Late? ==> LateOk(Plans(b.events), l, clock)
    requires l.Abandoned? ==> b.stopped
    requires t.events == b.events + [l] && t.pending == b.pending[1..] && t.nextAction == b.nextAction && t.closed == b.closed
    requires t.stopped == b.stopped
    ensures Inv(t, missing, clock)
  {
    LogGrows(b.events, l);
    NumberedKept(b, t, l);
    SendsKept(b.events, l, clock, clock);
    FrontierKept(b, t, l);
  }

  lemma SendIsOk(b: Bridge, l: Log, later: int)
    requires QueueOk(b) && b.pending != [] && l.Sent? && l.at <= later
    requires var e := b.pending[0]; l.id == e.id && l.lane == e.lane && l.lateness == l.at - e.due && 0 <= l.lateness <= LATE
    ensures SendOk(b.events + [l], |b.events|, later)
  {
    LogGrows(b.events, l);
    PrefixStays(b.events, l, |b.events|);
    assert b.pending[0] in b.pending;
  }

  lemma SendKeepsSends(b: Bridge, l: Log, missing: nat, clock: int, later: int)
    requires Inv(b, missing, clock) && b.pending != [] && l.Sent? && clock <= l.at <= later
    requires var e := b.pending[0]; l.id == e.id && l.lane == e.lane && l.lateness == l.at - e.due && 0 <= l.lateness <= LATE
    ensures SendsOk(b.events + [l], later)
  {
    var n, events := |b.events|, b.events + [l];
    LogGrows(b.events, l);
    SendIsOk(b, l, later);
    forall x | 0 <= x < n + 1
      ensures SendOk(events, x, later)
    {
      PrefixStays(b.events, l, x);
      if x < n { assert SendOk(b.events, x, clock); }
    }
  }

  lemma SendKeepsPairs(b: Bridge, l: Log, clock: int)
    requires SendsOk(b.events, clock) && PairsOk(b.events) && Frontier(b) && b.pending != [] && l.Sent? && clock <= l.at
    requires l.id == b.pending[0].id && l.lateness == l.at - b.pending[0].due
    ensures PairsOk(b.events + [l])
  {
    var n, events := |b.events|, b.events + [l];
    forall x, y | 0 <= x < y < n + 1
      ensures PairOk(events, x, y)
    {
      PrefixStays(b.events, l, x);
      if y < n {
        assert PairOk(b.events, x, y);
      } else if b.events[x].Sent? {
        assert SendOk(b.events, x, clock);
        assert Behind(b.events, x, b.pending[0]);
      }
    }
  }

  lemma SendKeepsFrontier(b: Bridge, t: Bridge, l: Log)
    requires Frontier(b) && QueueOk(b) && b.pending != [] && l.Sent?
    requires l.id == b.pending[0].id && l.lateness == l.at - b.pending[0].due
    requires t.events == b.events + [l] && t.pending == b.pending[1..]
    ensures Frontier(t)
  {
    forall x, e | 0 <= x < |t.events| && t.events[x].Sent? && e in t.pending
      ensures Behind(t.events, x, e)
    {
      PrefixStays(b.events, l, x);
      if x < |b.events| { assert Behind(b.events, x, e); }
    }
  }

  /** The first entry is sent, on time. */
  lemma SendFirstKeeps(b: Bridge, t: Bridge, l: Log, missing: nat, clock: int, later: int)
    requires Inv(b, missing, clock) && !b.closed && b.pending != [] && l.Sent? && clock <= l.at <= later
    requires var e := b.pending[0]; l.id == e.id && l.lane == e.lane && l.lateness == l.at - e.due && 0 <= l.lateness <= LATE
    requires t.events == b.events + [l] && t.pending == b.pending[1..] && t.nextAction == b.nextAction && !t.closed
    requires t.stopped == b.stopped
    ensures Inv(t, missing, later)
  {
    LogGrows(b.events, l);
    NumberedKept(b, t, l);
    SendKeepsSends(b, l, missing, clock, later);
    SendKeepsPairs(b, l, clock);
    SendKeepsFrontier(b, t, l);
  }

  /** The first entry is lost to a tap that raised. */
  lemma LoseFirstKeeps(b: Bridge, clock: int, later: int)
    requires Inv(b, 0, clock) && clock <= later && b.pending != []
    ensures Inv(b.(pending := b.pending[1..]), 1, later)
  {
    var t := b.(pending := b.pending[1..]);
    assert forall x :: 0 <= x < |b.events| && SendOk(b.events, x, clock) ==> SendOk(t.events, x, later);
    assert SendsOk(t.events, later);
  }

  lemma TurnKeeps(b: Bridge, turn: Turn, clock: int)
    requires Inv(b, 0, clock) && !b.closed && b.pending != [] && b.pending[0].due <= turn.check
    requires clock <= turn.check <= turn.now <= turn.back
    ensures Inv(TakeTurn(b, turn), if TapRaises(b, turn) then 1 else 0, turn.back)
  {
    var e, t := b.pending[0], TakeTurn(b, turn);
    if turn.now - e.due > LATE {
      TimePasses(b, 0, clock, turn.back);
      assert e in b.pending;
      SettleFirstKeeps(b, t, Late(e.id, turn.now - e.due, AtDispatch), 0, turn.back);
    } else if turn.raised {
      LoseFirstKeeps(b, clock, turn.back);
    } else {
      SendFirstKeeps(b, t, Sent(e.id, e.lane, turn.now, turn.back, turn.now - e.due), 0, clock, turn.back);
    }
  }

  lemma TimePasses(b: Bridge, missing: nat, clock: int, later: int)
    requires Inv(b, missing, clock) && clock <= later
    ensures Inv(b, missing, later)
  {
    forall x | 0 <= x < |b.events|
      ensures SendOk(b.events, x, later)
    {
      assert SendOk(b.events, x, clock);
    }
  }

  /** Clock readings never go backwards. */
  predicate Ticks(turns: seq<Turn>, i: nat, clock: int)
    requires i <= |turns|
    decreases |turns| - i
  {
    i == |turns| || (clock <= turns[i].check <= turns[i].now <= turns[i].back && Ticks(turns, i + 1, turns[i].back))
  }

  /** The last reading from turn i on. */
  function Until(turns: seq<Turn>, i: nat, clock: int): (last: int)
    requires i <= |turns| && Ticks(turns, i, clock)
    ensures last >= clock
    decreases |turns| - i
  {
    if i == |turns| then clock else Until(turns, i + 1, turns[i].back)
  }

  /** A dispatch kept the invariant, short of one action if it raised. */
  predicate DispatchedOk(d: Dispatched, clock: int, error: bool) {
    Inv(d.bridge, if d.raised then 1 else 0, clock) && !d.bridge.closed && d.bridge.error == error
  }

  lemma RaisingTurnKeeps(b: Bridge, turn: Turn, clock: int, last: int)
    requires Inv(b, 0, clock) && !b.closed && b.pending != [] && b.pending[0].due <= turn.check
    requires clock <= turn.check <= turn.now <= turn.back <= last && TapRaises(b, turn)
    ensures DispatchedOk(Dispatched(TakeTurn(b, turn), true), last, b.error)
  {
    TurnKeeps(b, turn, clock);
    TimePasses(TakeTurn(b, turn), 1, turn.back, last);
  }

  lemma QuietTurnKeeps(b: Bridge, turn: Turn, clock: int) returns (t: Bridge)
    requires Inv(b, 0, clock) && !b.closed && b.pending != [] && b.pending[0].due <= turn.check
    requires clock <= turn.check <= turn.now <= turn.back && !TapRaises(b, turn)
    ensures t == TakeTurn(b, turn) && Inv(t, 0, turn.back) && !t.closed && t.error == b.error
  {
    t := TakeTurn(b, turn);
    TurnKeeps(b, turn, clock);
  }

  lemma {:induction false} DispatchingKeeps(b: Bridge, turns: seq<Turn>, i: nat, clock: int)
    requires Inv(b, 0, clock) && !b.closed && i <= |turns| && Ticks(turns, i, clock)
    ensures DispatchedOk(Dispatching(b, turns, i), Until(turns, i, clock), b.error)
    decreases |turns| - i
  {
    if i == |turns| || b.pending == [] || turns[i].check < b.pending[0].due {
      TimePasses(b, 0, clock, Until(turns, i, clock));
    } else if TapRaises(b, turns[i]) {
      RaisingTurnKeeps(b, turns[i], clock, Until(turns, i, clock));
    } else {
      var t := QuietTurnKeeps(b, turns[i], clock);
      DispatchingKeeps(t, turns, i + 1, turns[i].back);
    }
  }

  /** A proposal alone: the next number, its due time, and no place in the queue yet. */
  function Proposal(b: Bridge, order: Order, receipt: int, now: int): Bridge {
    b.(nextAction := b.nextAction + 1,
       events := b.events + [Proposed(b.nextAction + 1, order.lane, order.delay, receipt + order.delay, now)])
  }

  lemma ProposalLogs(b: Bridge, order: Order, receipt: int, now: int)
    ensures var t := Proposal(b, order, receipt, now);
            && Plans(t.events) == Plans(b.events) + [Entry(receipt + order.delay, b.nextAction + 1, order.lane)]
            && Settled(t.events) == Settled(b.events) && t.events[|t.events| - 1].Proposed?
  {
    var l := Proposed(b.nextAction + 1, order.lane, order.delay, receipt + order.delay, now);
    LogGrows(b.events, l);
    assert Proposal(b, order, receipt, now).events == b.events + [l];
    assert Settled(b.events) + multiset{} == Settled(b.events);
  }

  lemma ProposalKeepsQueue(b: Bridge, order: Order, receipt: int, now: int, missing: nat)
    requires Numbered(b) && QueueOk(b) && Conserved(b, missing) && StoppedFirst(b)
    ensures var t := Proposal(b, order, receipt, now); QueueOk(t) && Conserved(t, missing + 1) && StoppedFirst(t)
  {
    ProposalLogs(b, order, receipt, now);
  }

  lemma ProposalKeeps(b: Bridge, order: Order, receipt: int, now: int, missing: nat, clock: int)
    requires Inv(b, missing, clock)
    ensures Inv(Proposal(b, order, receipt, now), missing + 1, clock)
  {
    var t := Proposal(b, order, receipt, now);
    var l := t.events[|b.events|];
    ProposalKeepsQueue(b, order, receipt, now, missing);
    NumberedKept(b, t, l);
    SendsKept(b.events, l, clock, clock);
    FrontierKept(b, t, l);
  }

  /** An id above every proposed one is unknown to queue and log. */
  lemma NewIdIsFresh(b: Bridge, missing: nat, clock: int)
    requires Inv(b, missing, clock)
    ensures Ids(b.pending) + Settled(b.events) + multiset{b.nextAction + 1} <= Everyone(b.nextAction + 1)
    ensures forall e :: e in b.pending ==> e.id != b.nextAction + 1
  {
  }

  /** The newest action, proposed and not yet anywhere, joins the queue. */
  predicate Newest(t: Bridge, e: Entry) {
    && t.events != [] && t.events[|t.events| - 1].Proposed?
    && 1 <= e.id == |Plans(t.events)| && e == Plans(t.events)[e.id - 1]
    && Ids(t.pending) + Settled(t.events) + multiset{e.id} <= Everyone(t.nextAction)
    && (forall x :: x in t.pending ==> x.id != e.id)
  }

  lemma EnqueueKeepsQueue(t: Bridge, e: Entry, missing: nat)
    requires QueueOk(t) && Conserved(t, missing + 1) && Newest(t, e)
    ensures var b := t.(pending := Insert(t.pending, e)); QueueOk(b) && Conserved(b, missing)
  {
    InsertKeepsQueue(t.pending, e);
  }

  lemma EnqueueKeepsFrontier(t: Bridge, e: Entry)
    requires Frontier(t) && Newest(t, e)
    ensures Frontier(t.(pending := Insert(t.pending, e)))
  {
    NewestIsBehind(t.events, e);
    forall x, f | 0 <= x < |t.events| && t.events[x].Sent? && f in Insert(t.pending, e)
      ensures Behind(t.events, x, f)
    {
      if f != e { assert Behind(t.events, x, f); }
    }
  }

  lemma EnqueueKeeps(t: Bridge, e: Entry, missing: nat, clock: int)
    requires Inv(t, missing + 1, clock) && !t.closed && Newest(t, e)
    ensures Inv(t.(pending := Insert(t.pending, e)), missing, clock)
  {
    EnqueueKeepsQueue(t, e, missing);
    EnqueueKeepsFrontier(t, e);
  }

  /** The action proposed last was not waiting at any send so far. */
  lemma NewestIsBehind(events: seq<Log>, e: Entry)
    requires events != [] && events[|events| - 1].Proposed? && e.id == |Plans(events)|
    ensures forall x :: 0 <= x < |events| && events[x].Sent? ==> Behind(events, x, e)
  {
    var n := |events| - 1;
    forall x | 0 <= x < |events| && events[x].Sent?
      ensures Behind(events, x, e)
    {
      PlansGrow(events, x, n);
    }
  }

  lemma {:induction false} PlansGrow(events: seq<Log>, x: nat, y: nat)
    requires x <= y <= |events|
    ensures |Plans(events[..x])| <= |Plans(events[..y])|
  {
    if x < y {
      assert events[..y][..y - 1] == events[..y - 1];
      PlansGrow(events, x, y - 1);
    }
  }

  lemma SettleNewKeeps(t: Bridge, l: Log, missing: nat, clock: int)
    requires Inv(t, missing + 1, clock) && l.Late? && LateOk(Plans(t.events), l, clock)
    requires Ids(t.pending) + Settled(t.events) + multiset{l.id} <= Everyone(t.nextAction)
    ensures Inv(t.(events := t.events + [l]), missing, clock)
  {
    var b := t.(events := t.events + [l]);
    LogGrows(t.events, l);
    NumberedKept(t, b, l);
    SendsKept(t.events, l, clock, clock);
    FrontierKept(t, b, l);
  }

  lemma ProposalIsNew(b: Bridge, order: Order, receipt: int, now: int, missing: nat, clock: int)
    requires Inv(b, missing, clock) && !b.closed
    ensures var t := Proposal(b, order, receipt, now);
            Inv(t, missing + 1, clock) && Newest(t, Entry(receipt + order.delay, b.nextAction + 1, order.lane))
  {
    ProposalKeeps(b, order, receipt, now, missing, clock);
    NewIdIsFresh(b, missing, clock);
    ProposalLogs(b, order, receipt, now);
  }

  lemma LateProposeKeeps(b: Bridge, order: Order, receipt: int, now: int, missing: nat, clock: int)
    requires Inv(b, missing, clock) && !b.closed && now <= clock && now - (receipt + order.delay) > LATE
    ensures Inv(Propose(b, order, receipt, now), missing, clock)
  {
    var l := Late(b.nextAction + 1, now - (receipt + order.delay), AtSubmission);
    ProposalIsNew(b, order, receipt, now, missing, clock);
    SettleNewKeeps(Proposal(b, order, receipt, now), l, missing, clock);
    LateProposal(b, order, receipt, now);
  }

  lemma LateProposal(b: Bridge, order: Order, receipt: int, now: int)
    requires now - (receipt + order.delay) > LATE
    ensures var l, t := Late(b.nextAction + 1, now - (receipt + order.delay), AtSubmission), Proposal(b, order, receipt, now);
            Propose(b, order, receipt, now) == t.(events := t.events + [l])
  {
  }

  lemma TimelyProposal(b: Bridge, order: Order, receipt: int, now: int)
    requires now - (receipt + order.delay) <= LATE
    ensures var e, t := Entry(receipt + order.delay, b.nextAction + 1, order.lane), Proposal(b, order, receipt, now);
            Propose(b, order, receipt, now) == t.(pending := Insert(t.pending, e))
  {
  }

  lemma TimelyProposeKeeps(b: Bridge, order: Order, receipt: int, now: int, missing: nat, clock: int)
    requires Inv(b, missing, clock) && !b.closed && now - (receipt + order.delay) <= LATE
    ensures Inv(Propose(b, order, receipt, now), missing, clock)
  {
    var e := Entry(receipt + order.delay, b.nextAction + 1, order.lane);
    ProposalIsNew(b, order, receipt, now, missing, clock);
    EnqueueKeeps(Proposal(b, order, receipt, now), e, missing, clock);
    TimelyProposal(b, order, receipt, now);
  }

  lemma ProposeKeeps(b: Bridge, order: Order, receipt: int, now: int, missing: nat, clock: int)
    requires Inv(b, missing, clock) && !b.closed && now <= clock
    ensures Inv(Propose(b, order, receipt, now), missing, clock) && !Propose(b, order, receipt, now).closed
  {
    if now - (receipt + order.delay) > LATE {
      LateProposeKeeps(b, order, receipt, now, missing, clock);
    } else {
      TimelyProposeKeeps(b, order, receipt, now, missing, clock);
    }
  }

  lemma {:induction false} ProposeAllKeeps(b: Bridge, orders: seq<Order>, receipt: int, now: int, missing: nat, clock: int)
    requires Inv(b, missing, clock) && !b.closed && now <= clock
    ensures Inv(ProposeAll(b, orders, receipt, now), missing, clock) && !ProposeAll(b, orders, receipt, now).closed
  {
    if orders != [] {
      var front := orders[..|orders| - 1];
      ProposeAllKeeps(b, front, receipt, now, missing, clock);
      ProposeKeeps(ProposeAll(b, front, receipt, now), orders[|orders| - 1], receipt, now, missing, clock);
    }
  }

  lemma {:induction false} AbandonKeeps(b: Bridge, missing: nat, clock: int)
    requires Inv(b, missing, clock) && b.stopped
    ensures Inv(Abandon(b), missing, clock)
    decreases |b.pending|
  {
    if b.pending != [] {
      var t := b.(pending := b.pending[1..], events := b.events + [Abandoned(b.pending[0].id)]);
      SettleFirstKeeps(b, t, Abandoned(b.pending[0].id), missing, clock);
      AbandonKeeps(t, missing, clock);
    }
  }

  // ----- whole runs ---------------------------------------------------------------------

  /** failing: a dispatch raised and the worker has yet to record the error. */
  datatype World = World(bridge: Bridge, failing: bool, clock: int)

  datatype Step = Look(observation: nat, receipt: int)
                | Press(pressed: bool, pressTime: int)
                | Batch(source: nat, actions: seq<Action>, submitTime: int)
                | Work(turns: seq<Turn>)
                | WorkerFails(failTime: int)
                | CaptureFails(captureTime: int)
                | BeginClose
                | FinishClose

  /** The one worker thread dispatches, and close finishes only once it is gone. */
  predicate Enabled(w: World, step: Step) {
    match step
    case Look(_, receipt) => true
    case Press(_, now) => w.clock <= now
    case Batch(_, _, now) => w.clock <= now
    case Work(turns) => !w.failing && Ticks(turns, 0, w.clock)
    case WorkerFails(now) => w.failing && w.clock <= now
    case CaptureFails(now) => w.clock <= now
    case BeginClose => true
    case FinishClose => !w.failing && w.bridge.stopped
  }

  function Apply(w: World, step: Step): World
    requires Enabled(w, step)
  {
    match step
    case Look(observation, receipt) => w.(bridge := Observe(w.bridge, observation, receipt))
    case Press(pressed, now) => w.(bridge := Start(w.bridge, pressed, now), clock := now)
    case Batch(observation, actions, now) => w.(bridge := Submit(w.bridge, observation, actions, now), clock := now)
    case Work(turns) =>
      var d := Dispatch(w.bridge, turns);
      World(d.bridge, d.raised, Until(turns, 0, w.clock))
    case WorkerFails(now) => World(Fail(w.bridge, now), false, now)
    case CaptureFails(now) => w.(bridge := Fail(w.bridge, now), clock := now)
    case BeginClose => if w.bridge.closed then w else w.(bridge := w.bridge.(stopped := true))
    case FinishClose => w.(bridge := Close(w.bridge))
  }

  /** Only a failure can leave an action unaccounted for, and at most one. */
  predicate WorldOk(w: World) {
    Inv(w.bridge, if w.failing || w.bridge.error then 1 else 0, w.clock)
  }

  predicate Runs(w: World, steps: seq<Step>)
    decreases |steps|
  {
    steps == [] || (Enabled(w, steps[0]) && Runs(Apply(w, steps[0]), steps[1..]))
  }

  function After(w: World, steps: seq<Step>): World
    requires Runs(w, steps)
    decreases |steps|
  {
    if steps == [] then w else After(Apply(w, steps[0]), steps[1..])
  }

  lemma FailKeeps(b: Bridge, now: int, clock: int)
    requires Inv(b, 1, clock) && clock <= now
    ensures Inv(Fail(b, now), 1, now)
  {
    if b.error {
      TimePasses(b, 1, clock, now);
    } else {
      NoteKeeps(b, Fail(b, now), Failed(now), 1, clock, now);
    }
  }

  lemma Slack(b: Bridge, clock: int)
    requires Inv(b, 0, clock)
    ensures Inv(b, 1, clock)
  {
  }

  lemma BatchKeeps(w: World, step: Step)
    requires WorldOk(w) && Enabled(w, step) && step.Batch?
    ensures WorldOk(Apply(w, step))
  {
    var missing := if w.failing || w.bridge.error then 1 else 0;
    TimePasses(w.bridge, missing, w.clock, step.submitTime);
    if Refuses(w.bridge, step.source, step.actions).None? {
      var orders := Validated(w.bridge.lanes, step.actions).value;
      ProposeAllKeeps(w.bridge, orders, w.bridge.observations[step.source], step.submitTime, missing, step.submitTime);
      ProposeAllErrors(w.bridge, orders, w.bridge.observations[step.source], step.submitTime);
    }
  }

  lemma {:induction false} ProposeAllErrors(b: Bridge, orders: seq<Order>, receipt: int, now: int)
    ensures ProposeAll(b, orders, receipt, now).error == b.error
  {
    if orders != [] { ProposeAllErrors(b, orders[..|orders| - 1], receipt, now); }
  }

  lemma WorkKeeps(w: World, step: Step)
    requires WorldOk(w) && Enabled(w, step) && step.Work?
    ensures WorldOk(Apply(w, step))
  {
    var turns := step.turns;
    if w.bridge.error || w.bridge.closed {
      var missing := if w.bridge.error then 1 else 0;
      TimePasses(w.bridge, missing, w.clock, Until(turns, 0, w.clock));
      if !w.bridge.error { Slack(w.bridge, Until(turns, 0, w.clock)); }
    } else {
      DispatchingKeeps(w.bridge, turns, 0, w.clock);
    }
  }

  lemma FinishKeeps(w: World)
    requires WorldOk(w) && Enabled(w, FinishClose)
    ensures WorldOk(Apply(w, FinishClose)) && Apply(w, FinishClose).bridge.pending == []
  {
    AbandonKeeps(w.bridge, if w.bridge.error then 1 else 0, w.clock);
    AbandonErrors(w.bridge);
  }

  lemma {:induction false} AbandonErrors(b: Bridge)
    ensures Abandon(b).error == b.error
    decreases |b.pending|
  {
    if b.pending != [] {
      AbandonErrors(b.(pending := b.pending[1..], events := b.events + [Abandoned(b.pending[0].id)]));
    }
  }

  lemma NotesKeep(w: World, step: Step)
    requires WorldOk(w) && Enabled(w, step) && (step.Look? || step.Press?)
    ensures WorldOk(Apply(w, step))
  {
    var b, t := w.bridge, Apply(w, step).bridge;
    var missing := if w.failing || b.error then 1 else 0;
    if t == b {
      TimePasses(b, missing, w.clock, Apply(w, step).clock);
    } else {
      NoteKeeps(b, t, t.events[|b.events|], missing, w.clock, Apply(w, step).clock);
    }
  }

  lemma StepKeeps(w: World, step: Step)
    requires WorldOk(w) && Enabled(w, step)
    ensures WorldOk(Apply(w, step))
  {
    match step
    case Look(_, _) => NotesKeep(w, step);
    case Press(_, _) => NotesKeep(w, step);
    case Batch(_, _, _) => BatchKeeps(w, step);
    case Work(_) => WorkKeeps(w, step);
    case WorkerFails(now) => FailKeeps(w.bridge, now, w.clock);
    case CaptureFails(now) =>
      if !w.failing && !w.bridge.error { Slack(w.bridge, w.clock); }
      FailKeeps(w.bridge, now, w.clock);
    case BeginClose =>
    case FinishClose => FinishKeeps(w);
  }

  lemma {:induction false} RunsKeep(w: World, steps: seq<Step>)
    requires WorldOk(w) && Runs(w, steps)
    ensures WorldOk(After(w, steps))
    decreases |steps|
  {
    if steps != [] {
      StepKeeps(w, steps[0]);
      RunsKeep(Apply(w, steps[0]), steps[1..]);
    }
  }

  function Ended(lanes: nat, clock: int, steps: seq<Step>): World
    requires Runs(World(Opened(lanes), false, clock), steps)
  {
    After(World(Opened(lanes), false, clock), steps)
  }

  lemma EndedIsOk(lanes: nat, clock: int, steps: seq<Step>)
    requires Runs(World(Opened(lanes), false, clock), steps)
    ensures WorldOk(Ended(lanes, clock, steps))
  {
    RunsKeep(World(Opened(lanes), false, clock), steps);
  }

  // ----- the promises ---------------------------------------------------------------------

  /** Where a proposed action can be found. */
  function Places(b: Bridge, id: nat): nat {
    Ids(b.pending)[id] + Settled(b.events)[id]
  }

  lemma TwoMissing(whole: multiset<nat>, part: multiset<nat>, a: nat, b: nat)
    requires part <= whole && a != b && part[a] < whole[a] && part[b] < whole[b]
    ensures |part| + 2 <= |whole|
  {
    var rest := whole - part;
    assert a in rest && b in rest;
    assert rest == multiset{a, b} + (rest - multiset{a, b});
    assert whole == part + rest;
  }

  /** Every proposed action is in exactly one place: waiting, sent, or dropped.  Only
      a tap that raised can leave one action in none, and then the error is set or
      about to be. */
  lemma Conservation(lanes: nat, clock: int, steps: seq<Step>, id: nat)
    requires Runs(World(Opened(lanes), false, clock), steps)
    requires 1 <= id <= Ended(lanes, clock, steps).bridge.nextAction
    ensures var w := Ended(lanes, clock, steps);
            && Places(w.bridge, id) <= 1
            && (Places(w.bridge, id) == 0 ==> w.failing || w.bridge.error)
            && (Places(w.bridge, id) == 0 ==>
                  forall other :: 1 <= other <= w.bridge.nextAction && other != id ==> Places(w.bridge, other) == 1)
  {
    var w := Ended(lanes, clock, steps);
    EndedIsOk(lanes, clock, steps);
    EveryoneOnce(w.bridge.nextAction);
    IdsCount(w.bridge.pending);
    var found, all := Ids(w.bridge.pending) + Settled(w.bridge.events), Everyone(w.bridge.nextAction);
    assert found[id] <= all[id];
    if Places(w.bridge, id) == 0 {
      assert all == found + (all - found);
      assert id in all - found;
      forall other | 1 <= other <= w.bridge.nextAction && other != id
        ensures Places(w.bridge, other) == 1
      {
        assert found[other] <= all[other];
        if found[other] == 0 { TwoMissing(all, found, id, other); }
      }
    }
  }

  lemma {:induction false} IdsCount(q: seq<Entry>)
    ensures |Ids(q)| == |q|
  {
    if q != [] { IdsCount(q[1..]); }
  }

  /** Once closed, nothing waits, whatever happens afterwards. */
  lemma ClosedIsEmpty(lanes: nat, clock: int, steps: seq<Step>)
    requires Runs(World(Opened(lanes), false, clock), steps) && Ended(lanes, clock, steps).bridge.closed
    ensures Ended(lanes, clock, steps).bridge.pending == []
  {
    EndedIsOk(lanes, clock, steps);
  }

  /** Every send is of an action as it was proposed, lane and due time, and on time:
      not before its due time, at most 20 ms after it. */
  lemma SendsAreOnTime(lanes: nat, clock: int, steps: seq<Step>, x: nat)
    requires Runs(World(Opened(lanes), false, clock), steps)
    requires x < |Ended(lanes, clock, steps).bridge.events| && Ended(lanes, clock, steps).bridge.events[x].Sent?
    ensures var events := Ended(lanes, clock, steps).bridge.events;
            var due := DueAt(events, x);
            && 1 <= events[x].id <= |Plans(events)|
            && Plans(events)[events[x].id - 1] == Entry(due, events[x].id, events[x].lane)
            && due <= events[x].at <= due + LATE
  {
    EndedIsOk(lanes, clock, steps);
    assert SendOk(Ended(lanes, clock, steps).bridge.events, x, Ended(lanes, clock, steps).clock);
  }

  /** Nothing is dropped without cause: a late drop is of an action more than 20 ms past
      its due time by a reading already made, and nothing is abandoned before a stop. */
  lemma DropsAreJustified(lanes: nat, clock: int, steps: seq<Step>, x: nat)
    requires Runs(World(Opened(lanes), false, clock), steps)
    requires x < |Ended(lanes, clock, steps).bridge.events|
    ensures var w := Ended(lanes, clock, steps);
            var events := w.bridge.events;
            && (events[x].Late? ==> LateOk(Plans(events), events[x], w.clock))
            && (events[x].Abandoned? ==> w.bridge.stopped)
  {
    EndedIsOk(lanes, clock, steps);
    assert SendOk(Ended(lanes, clock, steps).bridge.events, x, Ended(lanes, clock, steps).clock);
  }

  /** Sends out of due order, or equal dues out of submission order, happen only when
      the second action was submitted after the first had gone out, and then their dues
      differ by at most 20 ms; equal dues therefore always go out in submission order. */
  lemma SendsAreOrdered(lanes: nat, clock: int, steps: seq<Step>, x: nat, y: nat)
    requires Runs(World(Opened(lanes), false, clock), steps)
    requires x < y < |Ended(lanes, clock, steps).bridge.events|
    requires Ended(lanes, clock, steps).bridge.events[x].Sent? && Ended(lanes, clock, steps).bridge.events[y].Sent?
    ensures var events := Ended(lanes, clock, steps).bridge.events;
            var dx, dy := DueAt(events, x), DueAt(events, y);
            && (dy < dx ==> |Plans(events[..x])| < events[y].id && dx - dy <= LATE)
            && (dx == dy ==> events[x].id < events[y].id)
  {
    var w := Ended(lanes, clock, steps);
    EndedIsOk(lanes, clock, steps);
    var events := w.bridge.events;
    assert SendOk(events, x, w.clock) && SendOk(events, y, w.clock);
    assert PairOk(events, x, y);
    assert DueAt(events, x) == DueAt(events, y) && events[x].id == events[y].id ==> false by {
      SentOnce(events, x, y);
      EveryoneOnce(w.bridge.nextAction);
      if events[x].id == events[y].id {
        assert (Ids(w.bridge.pending) + Settled(events))[events[x].id] <= Everyone(w.bridge.nextAction)[events[x].id];
      }
    }
  }

  lemma {:induction false} SettledAt(events: seq<Log>, x: nat)
    requires x < |events| && Settles(events[x])
    ensures Settled(events)[events[x].id] >= 1
  {
    var n := |events| - 1;
    if x < n { SettledAt(events[..n], x); }
  }

  lemma {:induction false} SentOnce(events: seq<Log>, x: nat, y: nat)
    requires x < y < |events| && events[x].Sent? && events[y].Sent?
    ensures events[x].id == events[y].id ==> Settled(events)[events[x].id] >= 2
  {
    var n := |events| - 1;
    if y < n { SentOnce(events[..n], x, y); } else { SettledAt(events[..n], x); }
  }

  /** The log after a proposal: its record, then perhaps a note that it came too late. */
  lemma ProposeLogs(b: Bridge, order: Order, receipt: int, now: int) returns (l: Log, late: Log)
    ensures l.Proposed? && Entry(l.due, l.id, l.lane) == Entry(receipt + order.delay, b.nextAction + 1, order.lane) && late.Late?
    ensures var t := Propose(b, order, receipt, now);
            t.nextAction == b.nextAction + 1 && (t.events == b.events + [l] || t.events == b.events + [l] + [late])
  {
    l := Proposed(b.nextAction + 1, order.lane, order.delay, receipt + order.delay, now);
    late := Late(l.id, now - l.due, AtSubmission);
  }

  lemma ProposeAddsPlan(b: Bridge, order: Order, receipt: int, now: int)
    ensures var t := Propose(b, order, receipt, now);
            && t.nextAction == b.nextAction + 1
            && Plans(t.events) == Plans(b.events) + [Entry(receipt + order.delay, b.nextAction + 1, order.lane)]
  {
    var l, late := ProposeLogs(b, order, receipt, now);
    LogGrows(b.events, l);
    LogGrows(b.events + [l], late);
  }

  function PlansOf(orders: seq<Order>, receipt: int, first: nat): seq<Entry> {
    if orders == [] then []
    else
      var n := |orders| - 1;
      PlansOf(orders[..n], receipt, first) + [Entry(receipt + orders[n].delay, first + n, orders[n].lane)]
  }

  lemma {:induction false} BatchNumbers(b: Bridge, orders: seq<Order>, receipt: int, now: int)
    ensures ProposeAll(b, orders, receipt, now).nextAction == b.nextAction + |orders|
  {
    if orders != [] { BatchNumbers(b, orders[..|orders| - 1], receipt, now); }
  }

  /** The bridge before and after the last action of a batch. */
  lemma LastOfBatch(b: Bridge, orders: seq<Order>, receipt: int, now: int) returns (u: Bridge, t: Bridge)
    requires orders != []
    ensures u == ProposeAll(b, orders[..|orders| - 1], receipt, now) && t == ProposeAll(b, orders, receipt, now)
    ensures u.nextAction == b.nextAction + |orders| - 1
    ensures t == Propose(u, orders[|orders| - 1], receipt, now)
  {
    BatchNumbers(b, orders[..|orders| - 1], receipt, now);
    u, t := ProposeAll(b, orders[..|orders| - 1], receipt, now), ProposeAll(b, orders, receipt, now);
  }

  lemma PlansOfLast(orders: seq<Order>, receipt: int, first: nat, id: nat)
    requires orders != [] && id == first + |orders| - 1
    ensures var n := |orders| - 1;
            PlansOf(orders, receipt, first) == PlansOf(orders[..n], receipt, first) + [Entry(receipt + orders[n].delay, id, orders[n].lane)]
  {
  }

  lemma PlansJoin(before: seq<Entry>, plans: seq<Entry>, e: Entry, after: seq<Entry>)
    requires after == (before + plans) + [e]
    ensures after == before + (plans + [e])
  {
  }

  /** What was proposed once the batch is in: what was before, then the batch. */
  predicate Holds(t: Bridge, before: seq<Entry>, plans: seq<Entry>) {
    Plans(t.events) == before + plans
  }

  lemma OneMoreHolds(u: Bridge, order: Order, receipt: int, now: int, before: seq<Entry>, plans: seq<Entry>)
    requires Holds(u, before, plans)
    ensures Holds(Propose(u, order, receipt, now), before, plans + [Entry(receipt + order.delay, u.nextAction + 1, order.lane)])
  {
    ProposeAddsPlan(u, order, receipt, now);
    PlansJoin(before, plans, Entry(receipt + order.delay, u.nextAction + 1, order.lane), Plans(Propose(u, order, receipt, now).events));
  }

  /** An accepted batch gives every action the next number, in order, in its lane, due
      its delay after the named receipt. */
  lemma {:induction false} BatchIsWhole(b: Bridge, orders: seq<Order>, receipt: int, now: int) returns (t: Bridge)
    ensures t == ProposeAll(b, orders, receipt, now)
    ensures Plans(t.events) == Plans(b.events) + PlansOf(orders, receipt, b.nextAction + 1)
  {
    if orders == [] {
      t := b;
    } else {
      var n := |orders| - 1;
      var v := BatchIsWhole(b, orders[..n], receipt, now);
      var u;
      u, t := LastOfBatch(b, orders, receipt, now);
      PlansOfLast(orders, receipt, b.nextAction + 1, u.nextAction + 1);
      OneMoreHolds(u, orders[n], receipt, now, Plans(b.events), PlansOf(orders[..n], receipt, b.nextAction + 1));
    }
  }
}
