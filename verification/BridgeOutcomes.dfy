/** What each operation of the bridge does, said of the request, the clock and the log. */
module BridgeOutcomes {
  import opened Options
  import opened BridgeRules
  import BridgeProofs

  // ----- one action -----------------------------------------------------------------

  /** The lane a request names: by number, or by a letter of either case.  The upper case
      of a dotless i is I, the ninth letter. */
  predicate Names(t: LaneText, lane: int) {
    match t
    case Number(n) => n == lane
    case Letter(c) => c as int == 'A' as int + lane || c as int == 'a' as int + lane || (c == '\U{131}' && lane == 8)
    case NoLane => false
  }

  /** No integer is nearer, and of two as near it is the even one. */
  predicate Nearest(x: real, n: int) {
    -0.5 <= x - n as real <= 0.5 && (x - n as real == 0.5 || x - n as real == -0.5 ==> n % 2 == 0)
  }

  /** The action asks for this lane, and this delay in nanoseconds. */
  predicate Asks(lanes: nat, a: Action, lane: int, delay: int) {
    && a.Tap? && 0 <= lane < lanes && Names(a.lane, lane)
    && a.delay.Milliseconds? && 0.0 <= a.delay.ms <= 1000.0 && Nearest(a.delay.ms * 1000000.0, delay)
  }

  lemma RoundIsNearest(x: real)
    ensures Nearest(x, Round(x))
    ensures forall n :: Nearest(x, n) ==> n == Round(x)
  {
    var down := x.Floor;
    forall n | Nearest(x, n)
      ensures n == Round(x)
    {
      assert n == down || n == down + 1;
    }
  }

  /** An action is valid exactly when it names a lane of this run and a delay of 0 to 1000
      milliseconds, and then the order is for just that. */
  lemma ValidExactly(lanes: nat, a: Action)
    requires lanes <= 16
    ensures forall lane, delay :: Valid(lanes, a) == Some(Order(lane, delay)) <==> Asks(lanes, a, lane, delay)
  {
    if a.Tap? && a.delay.Milliseconds? { RoundIsNearest(a.delay.ms * 1000000.0); }
  }

  // ----- one batch -------------------------------------------------------------------

  /** The proposals in a log, in order. */
  function Records(events: seq<Log>): seq<Log> {
    if events == [] then []
    else
      var last := events[|events| - 1];
      Records(events[..|events| - 1]) + if last.Proposed? then [last] else []
  }

  lemma RecordsGrow(events: seq<Log>, l: Log)
    ensures Records(events + [l]) == Records(events) + if l.Proposed? then [l] else []
  {
    assert (events + [l])[..|events|] == events;
  }

  /** The record of proposal number i of a batch. */
  function RecordOf(b: Bridge, o: Order, i: nat, receipt: int, now: int): Log {
    Proposed(b.nextAction + 1 + i, o.lane, o.delay, receipt + o.delay, now)
  }

  /** The note about order number i, if it was too late. */
  function LateOf(b: Bridge, o: Order, i: nat, receipt: int, now: int): Log {
    Late(b.nextAction + 1 + i, now - (receipt + o.delay), AtSubmission)
  }

  function EntryOf(b: Bridge, o: Order, i: nat, receipt: int): Entry {
    Entry(receipt + o.delay, b.nextAction + 1 + i, o.lane)
  }

  predicate TooLate(o: Order, receipt: int, now: int) {
    now - (receipt + o.delay) > 20_000_000
  }

  /** What became of order number i: proposed with the next number and due its delay after
      the receipt, and then waiting, unless it was more than 20 ms late already. */
  predicate OrderDone(b: Bridge, t: Bridge, o: Order, i: nat, receipt: int, now: int) {
    && HasRecord(b.events, t.events, i, RecordOf(b, o, i, receipt, now))
    && (Noted(b.events, t.events, LateOf(b, o, i, receipt, now)) <==> TooLate(o, receipt, now))
    && (EntryOf(b, o, i, receipt) in t.pending <==> !TooLate(o, receipt, now) || EntryOf(b, o, i, receipt) in b.pending)
  }

  predicate HasRecord(before: seq<Log>, after: seq<Log>, i: nat, l: Log) {
    |Records(before)| + i < |Records(after)| && Records(after)[|Records(before)| + i] == l
  }

  predicate Noted(before: seq<Log>, after: seq<Log>, l: Log) {
    exists x :: |before| <= x < |after| && after[x] == l
  }

  /** The log grew by n records and notes about those alone. */
  predicate LogsOnly(before: seq<Log>, after: seq<Log>, first: nat, n: nat) {
    && before <= after && Records(before) <= Records(after) && |Records(after)| == |Records(before)| + n
    && (forall x :: |before| <= x < |after| ==> (after[x].Proposed? || after[x].Late?) && first < after[x].id <= first + n)
  }

  predicate QueueOnly(before: seq<Entry>, after: seq<Entry>, first: nat, n: nat) {
    && (forall x :: x in before ==> x in after)
    && (forall x :: x in after ==> x in before || first < x.id <= first + n)
  }

  /** Nothing else is done by a batch of n. */
  predicate OnlyBatch(b: Bridge, t: Bridge, n: nat) {
    && t == b.(nextAction := b.nextAction + n, events := t.events, pending := t.pending)
    && LogsOnly(b.events, t.events, b.nextAction, n) && QueueOnly(b.pending, t.pending, b.nextAction, n)
  }

  /** One more record in a log, and perhaps a note that it is late. */
  predicate OneMore(mid: seq<Log>, after: seq<Log>, l: Log, late: Log, noted: bool) {
    && l.Proposed? && late.Late? && l.id == late.id
    && after == mid + if noted then [l, late] else [l]
  }

  lemma OneMoreRecord(mid: seq<Log>, after: seq<Log>, l: Log, late: Log, noted: bool)
    requires OneMore(mid, after, l, late, noted)
    ensures Records(after) == Records(mid) + [l]
  {
    RecordsGrow(mid, l);
    RecordsGrow(mid + [l], late);
    assert mid + [l] + [late] == mid + [l, late];
  }

  lemma LogsOnlyGrows(before: seq<Log>, mid: seq<Log>, after: seq<Log>, l: Log, late: Log, noted: bool, first: nat, n: nat)
    requires LogsOnly(before, mid, first, n) && OneMore(mid, after, l, late, noted) && l.id == first + n + 1
    ensures LogsOnly(before, after, first, n + 1) && HasRecord(before, after, n, l)
  {
    OneMoreRecord(mid, after, l, late, noted);
  }

  /** What is noted about other orders stays so; about this one the note is the last. */
  lemma NotesGrow(before: seq<Log>, mid: seq<Log>, after: seq<Log>, l: Log, late: Log, noted: bool, first: nat, n: nat)
    requires LogsOnly(before, mid, first, n) && OneMore(mid, after, l, late, noted) && l.id == first + n + 1
    ensures Noted(before, after, late) <==> noted
    ensures forall m: Log :: m.Late? && m != late ==> (Noted(before, after, m) <==> Noted(before, mid, m))
  {
    if noted { assert after[|mid| + 1] == late; }
    forall m: Log | m.Late? && m != late
      ensures Noted(before, after, m) <==> Noted(before, mid, m)
    {
      if Noted(before, mid, m) {
        var x :| |before| <= x < |mid| && mid[x] == m;
        assert after[x] == m;
      }
      if Noted(before, after, m) {
        var x :| |before| <= x < |after| && after[x] == m;
        assert x < |mid| && mid[x] == m;
      }
    }
  }

  lemma QueueOnlyGrows(before: seq<Entry>, mid: seq<Entry>, after: seq<Entry>, e: Entry, timely: bool, first: nat, n: nat)
    requires QueueOnly(before, mid, first, n) && e.id == first + n + 1 && after == (if timely then Insert(mid, e) else mid)
    ensures QueueOnly(before, after, first, n + 1)
    ensures e in after <==> timely || e in before
    ensures forall x :: x != e ==> (x in after <==> x in mid)
  {
  }

  /** One more order done: its record, then a note that it is late, or a place in the queue. */
  predicate OneOrder(u: Bridge, t: Bridge, l: Log, late: Log, e: Entry, noted: bool) {
    && t == u.(nextAction := u.nextAction + 1, events := t.events, pending := t.pending)
    && OneMore(u.events, t.events, l, late, noted)
    && t.pending == if noted then u.pending else Insert(u.pending, e)
  }

  /** The last of n + 1 orders is done on top of the first n. */
  predicate LastOrder(b: Bridge, u: Bridge, t: Bridge, n: nat, o: Order, receipt: int, now: int) {
    OneOrder(u, t, RecordOf(b, o, n, receipt, now), LateOf(b, o, n, receipt, now), EntryOf(b, o, n, receipt), TooLate(o, receipt, now))
  }

  lemma ProposeDoes(b: Bridge, u: Bridge, n: nat, o: Order, receipt: int, now: int)
    requires u.nextAction == b.nextAction + n
    ensures LastOrder(b, u, Propose(u, o, receipt, now), n, o, receipt, now)
  {
    var l, late := RecordOf(b, o, n, receipt, now), LateOf(b, o, n, receipt, now);
    assert u.events + [l] + [late] == u.events + [l, late];
  }

  lemma LastOrderLogs(b: Bridge, u: Bridge, t: Bridge, n: nat, o: Order, receipt: int, now: int)
    requires OnlyBatch(b, u, n) && LastOrder(b, u, t, n, o, receipt, now)
    ensures LogsOnly(b.events, t.events, b.nextAction, n + 1)
    ensures HasRecord(b.events, t.events, n, RecordOf(b, o, n, receipt, now))
    ensures forall i, l :: 0 <= i < n && HasRecord(b.events, u.events, i, l) ==> HasRecord(b.events, t.events, i, l)
  {
    var l, late := RecordOf(b, o, n, receipt, now), LateOf(b, o, n, receipt, now);
    LogsOnlyGrows(b.events, u.events, t.events, l, late, TooLate(o, receipt, now), b.nextAction, n);
    OneMoreRecord(u.events, t.events, l, late, TooLate(o, receipt, now));
  }

  lemma LastOrderNotes(b: Bridge, u: Bridge, t: Bridge, n: nat, o: Order, receipt: int, now: int)
    requires OnlyBatch(b, u, n) && LastOrder(b, u, t, n, o, receipt, now)
    ensures Noted(b.events, t.events, LateOf(b, o, n, receipt, now)) <==> TooLate(o, receipt, now)
    ensures forall m: Log :: m.Late? && m != LateOf(b, o, n, receipt, now) ==> (Noted(b.events, t.events, m) <==> Noted(b.events, u.events, m))
  {
    var l, late := RecordOf(b, o, n, receipt, now), LateOf(b, o, n, receipt, now);
    NotesGrow(b.events, u.events, t.events, l, late, TooLate(o, receipt, now), b.nextAction, n);
  }

  lemma LastOrderQueues(b: Bridge, u: Bridge, t: Bridge, n: nat, o: Order, receipt: int, now: int)
    requires OnlyBatch(b, u, n) && LastOrder(b, u, t, n, o, receipt, now)
    ensures QueueOnly(b.pending, t.pending, b.nextAction, n + 1)
    ensures EntryOf(b, o, n, receipt) in t.pending <==> !TooLate(o, receipt, now) || EntryOf(b, o, n, receipt) in b.pending
    ensures forall x :: x != EntryOf(b, o, n, receipt) ==> (x in t.pending <==> x in u.pending)
  {
    QueueOnlyGrows(b.pending, u.pending, t.pending, EntryOf(b, o, n, receipt), !TooLate(o, receipt, now), b.nextAction, n);
  }

  lemma BatchGrows(b: Bridge, u: Bridge, t: Bridge, n: nat, o: Order, receipt: int, now: int)
    requires OnlyBatch(b, u, n) && LastOrder(b, u, t, n, o, receipt, now)
    ensures OnlyBatch(b, t, n + 1) && OrderDone(b, t, o, n, receipt, now)
  {
    LastOrderLogs(b, u, t, n, o, receipt, now);
    LastOrderNotes(b, u, t, n, o, receipt, now);
    LastOrderQueues(b, u, t, n, o, receipt, now);
  }

  lemma OrderStaysDone(b: Bridge, u: Bridge, t: Bridge, n: nat, o: Order, i: nat, last: Order, receipt: int, now: int)
    requires OnlyBatch(b, u, n) && LastOrder(b, u, t, n, last, receipt, now) && i < n && OrderDone(b, u, o, i, receipt, now)
    ensures OrderDone(b, t, o, i, receipt, now)
  {
    LastOrderLogs(b, u, t, n, last, receipt, now);
    LastOrderNotes(b, u, t, n, last, receipt, now);
    LastOrderQueues(b, u, t, n, last, receipt, now);
    assert LateOf(b, o, i, receipt, now) != LateOf(b, last, n, receipt, now) && EntryOf(b, o, i, receipt) != EntryOf(b, last, n, receipt);
  }

  predicate AllDone(b: Bridge, t: Bridge, orders: seq<Order>, receipt: int, now: int) {
    forall i :: 0 <= i < |orders| ==> OrderDone(b, t, orders[i], i, receipt, now)
  }

  lemma AllStayDone(b: Bridge, u: Bridge, t: Bridge, orders: seq<Order>, last: Order, receipt: int, now: int)
    requires OnlyBatch(b, u, |orders|) && AllDone(b, u, orders, receipt, now) && LastOrder(b, u, t, |orders|, last, receipt, now)
    ensures AllDone(b, t, orders + [last], receipt, now) && OnlyBatch(b, t, |orders| + 1)
  {
    BatchGrows(b, u, t, |orders|, last, receipt, now);
    forall i | 0 <= i < |orders|
      ensures OrderDone(b, t, orders[i], i, receipt, now)
    {
      OrderStaysDone(b, u, t, |orders|, orders[i], i, last, receipt, now);
    }
  }

  /** A batch of orders is done, and nothing else. */
  predicate BatchIs(b: Bridge, t: Bridge, orders: seq<Order>, receipt: int, now: int) {
    OnlyBatch(b, t, |orders|) && AllDone(b, t, orders, receipt, now)
  }

  lemma BatchStep(b: Bridge, u: Bridge, orders: seq<Order>, receipt: int, now: int) returns (t: Bridge)
    requires orders != [] && BatchIs(b, u, orders[..|orders| - 1], receipt, now)
    ensures t == Propose(u, orders[|orders| - 1], receipt, now) && BatchIs(b, t, orders, receipt, now)
  {
    var front, last := orders[..|orders| - 1], orders[|orders| - 1];
    t := Propose(u, last, receipt, now);
    ProposeDoes(b, u, |front|, last, receipt, now);
    AllStayDone(b, u, t, front, last, receipt, now);
    assert front + [last] == orders;
  }

  lemma NothingDone(b: Bridge, receipt: int, now: int)
    ensures BatchIs(b, b, [], receipt, now)
  {
  }

  lemma ProposeAllLast(b: Bridge, u: Bridge, orders: seq<Order>, receipt: int, now: int)
    requires orders != [] && u == ProposeAll(b, orders[..|orders| - 1], receipt, now)
    ensures ProposeAll(b, orders, receipt, now) == Propose(u, orders[|orders| - 1], receipt, now)
  {
  }

  lemma {:induction false} BatchDone(b: Bridge, orders: seq<Order>, receipt: int, now: int) returns (t: Bridge)
    ensures t == ProposeAll(b, orders, receipt, now) && BatchIs(b, t, orders, receipt, now)
  {
    if orders == [] {
      NothingDone(b, receipt, now);
      t := b;
    } else {
      var u := BatchDone(b, orders[..|orders| - 1], receipt, now);
      t := BatchStep(b, u, orders, receipt, now);
      ProposeAllLast(b, u, orders, receipt, now);
    }
  }

  /** All of a batch is acceptable: each of its actions is, and the bridge can take it. */
  ghost predicate Acceptable(b: Bridge, observation: nat, actions: seq<Action>) {
    && |actions| <= 128 && (forall i :: 0 <= i < |actions| ==> Askable(b.lanes, actions[i]))
    && !b.error && !b.closed && b.started && observation in b.observations
    && |b.pending| + |actions| <= 8192 && b.nextAction + |actions| <= 32768
  }

  ghost predicate Askable(lanes: nat, a: Action) {
    exists lane, delay :: Asks(lanes, a, lane, delay)
  }

  /** Some order does what action number i asks for, and was carried out. */
  ghost predicate Honoured(b: Bridge, t: Bridge, a: Action, i: nat, receipt: int, now: int) {
    exists o: Order :: Asks(b.lanes, a, o.lane, o.delay) && OrderDone(b, t, o, i, receipt, now)
  }

  lemma RefusesExactly(b: Bridge, observation: nat, actions: seq<Action>)
    requires b.lanes <= 16
    ensures Refuses(b, observation, actions).None? <==> Acceptable(b, observation, actions)
  {
    forall i | 0 <= i < |actions|
      ensures Valid(b.lanes, actions[i]).Some? <==> Askable(b.lanes, actions[i])
    {
      ValidExactly(b.lanes, actions[i]);
      var v := Valid(b.lanes, actions[i]);
      if v.Some? { assert Asks(b.lanes, actions[i], v.value.lane, v.value.delay); }
    }
  }

  /** From the request to the log: a batch is taken as a whole or not at all, and every
      action taken is proposed in its order with the next number, in the lane it names, due
      its delay to the nearest nanosecond after the receipt it refers to. */
  lemma SubmitHonours(b: Bridge, observation: nat, actions: seq<Action>, now: int)
    requires b.lanes <= 16
    ensures var t := Submit(b, observation, actions, now);
            if Acceptable(b, observation, actions) then
              && OnlyBatch(b, t, |actions|)
              && forall i :: 0 <= i < |actions| ==> Honoured(b, t, actions[i], i, b.observations[observation], now)
            else t == b
  {
    RefusesExactly(b, observation, actions);
    if Acceptable(b, observation, actions) {
      var orders, receipt := Validated(b.lanes, actions).value, b.observations[observation];
      var t := BatchDone(b, orders, receipt, now);
      forall i | 0 <= i < |actions|
        ensures Honoured(b, t, actions[i], i, receipt, now)
      {
        ValidExactly(b.lanes, actions[i]);
        var o := orders[i];
        assert Valid(b.lanes, actions[i]) == Some(Order(o.lane, o.delay));
        assert Asks(b.lanes, actions[i], o.lane, o.delay) && OrderDone(b, t, o, i, receipt, now);
      }
    }
  }

  // ----- one dispatch ------------------------------------------------------------------

  /** What the log says of an entry taken in this turn, unless its tap raised. */
  function TurnLog(e: Entry, t: Turn): Log {
    if t.now - e.due > 20_000_000 then Late(e.id, t.now - e.due, AtDispatch)
    else Sent(e.id, e.lane, t.now, t.back, t.now - e.due)
  }

  predicate Raises(e: Entry, t: Turn) {
    t.raised && t.now - e.due <= 20_000_000
  }

  /** From turn i on the first n of these entries were taken, each when it was found due;
      only the last can have raised. */
  predicate TakenDue(q: seq<Entry>, turns: seq<Turn>, i: nat, n: nat, raised: bool) {
    && n <= |q| && i + n <= |turns| && (raised ==> n > 0)
    && (forall j :: 0 <= j < n ==> turns[i + j].check >= q[j].due && (Raises(q[j], turns[i + j]) <==> raised && j == n - 1))
  }

  /** Each of the first n is logged as sent or late. */
  predicate TakenLogged(q: seq<Entry>, turns: seq<Turn>, i: nat, n: nat, before: seq<Log>, after: seq<Log>) {
    && n <= |q| && i + n <= |turns| && |after| == |before| + n && before <= after
    && (forall j :: 0 <= j < n ==> after[|before| + j] == TurnLog(q[j], turns[i + j]))
  }

  /** The first n entries are gone, and all of them are logged but one whose tap raised. */
  predicate Took(b: Bridge, turns: seq<Turn>, i: nat, n: nat, d: Dispatched) {
    && TakenDue(b.pending, turns, i, n, d.raised)
    && d.bridge == b.(pending := b.pending[n..], events := d.bridge.events)
    && TakenLogged(b.pending, turns, i, if d.raised then n - 1 else n, b.events, d.bridge.events)
  }

  /** It stopped because it had to: a tap raised, nothing was left, or the next entry was
      not due at the look that followed. */
  predicate StoppedRightly(b: Bridge, turns: seq<Turn>, i: nat, n: nat, d: Dispatched) {
    d.raised || n >= |b.pending| || i + n >= |turns| || turns[i + n].check < b.pending[n].due
  }

  lemma DueMore(q: seq<Entry>, turns: seq<Turn>, i: nat, n: nat, raised: bool)
    requires q != [] && i < |turns| && turns[i].check >= q[0].due && !Raises(q[0], turns[i]) && TakenDue(q[1..], turns, i + 1, n, raised)
    ensures TakenDue(q, turns, i, n + 1, raised)
  {
    forall j | 0 < j < n + 1
      ensures turns[i + j].check >= q[j].due && (Raises(q[j], turns[i + j]) <==> raised && j == n)
    {
      assert q[j] == q[1..][j - 1] && turns[i + j] == turns[i + 1 + (j - 1)];
    }
  }

  lemma LoggedMore(q: seq<Entry>, turns: seq<Turn>, i: nat, n: nat, before: seq<Log>, after: seq<Log>)
    requires q != [] && i < |turns| && TakenLogged(q[1..], turns, i + 1, n, before + [TurnLog(q[0], turns[i])], after)
    ensures TakenLogged(q, turns, i, n + 1, before, after)
  {
    var mid := before + [TurnLog(q[0], turns[i])];
    assert after[|before|] == mid[|before|];
    forall j | 0 < j < n + 1
      ensures after[|before| + j] == TurnLog(q[j], turns[i + j])
    {
      assert after[|mid| + (j - 1)] == TurnLog(q[1..][j - 1], turns[i + 1 + (j - 1)]);
    }
  }

  lemma TookMore(b: Bridge, turns: seq<Turn>, i: nat, n: nat, d: Dispatched)
    requires i < |turns| && b.pending != [] && turns[i].check >= b.pending[0].due && !TapRaises(b, turns[i])
    requires Took(TakeTurn(b, turns[i]), turns, i + 1, n, d) && StoppedRightly(TakeTurn(b, turns[i]), turns, i + 1, n, d)
    ensures Took(b, turns, i, n + 1, d) && StoppedRightly(b, turns, i, n + 1, d)
  {
    var u, l := TakeTurn(b, turns[i]), TurnLog(b.pending[0], turns[i]);
    assert u == b.(pending := b.pending[1..], events := b.events + [l]);
    DueMore(b.pending, turns, i, n, d.raised);
    LoggedMore(b.pending, turns, i, if d.raised then n - 1 else n, b.events, d.bridge.events);
    assert b.pending[1..][n..] == b.pending[n + 1..];
  }

  lemma {:induction false} DispatchingExactly(b: Bridge, turns: seq<Turn>, i: nat) returns (n: nat)
    requires i <= |turns|
    ensures var d := Dispatching(b, turns, i); Took(b, turns, i, n, d) && StoppedRightly(b, turns, i, n, d)
    decreases |turns| - i
  {
    n := 0;
    if i < |turns| && b.pending != [] && turns[i].check >= b.pending[0].due {
      if TapRaises(b, turns[i]) {
        n := 1;
      } else {
        var m := DispatchingExactly(TakeTurn(b, turns[i]), turns, i + 1);
        TookMore(b, turns, i, m, Dispatching(b, turns, i));
        n := m + 1;
      }
    }
  }

  /** A dispatch does nothing but raise on a broken or closed bridge; otherwise it takes
      the earliest entries, one a turn, while they are due, sends each that is at most 20
      ms late, drops each that is more, and ends early only by a tap that raises. */
  lemma DispatchExactly(b: Bridge, turns: seq<Turn>) returns (n: nat)
    ensures var d := Dispatch(b, turns);
            if b.error || b.closed then d == Dispatched(b, true)
            else Took(b, turns, 0, n, d) && StoppedRightly(b, turns, 0, n, d)
  {
    n := DispatchingExactly(b, turns, 0);
  }

  // ----- closing -----------------------------------------------

  lemma {:induction false} AbandonExactly(b: Bridge)
    ensures var t := Abandon(b);
            && t == b.(pending := [], events := t.events)
            && t.events == b.events + seq(|b.pending|, j requires 0 <= j < |b.pending| => Abandoned(b.pending[j].id))
    decreases |b.pending|
  {
    if b.pending != [] {
      AbandonExactly(b.(pending := b.pending[1..], events := b.events + [Abandoned(b.pending[0].id)]));
    }
  }

  /** A first close abandons what is waiting, earliest first, each once, and nothing else;
      a second changes nothing. */
  lemma CloseExactly(b: Bridge)
    ensures var t := Close(b);
            if b.closed then t == b
            else
              && t == b.(closed := true, pending := [], events := t.events)
              && |t.events| == |b.events| + |b.pending| && b.events <= t.events
              && forall j :: 0 <= j < |b.pending| ==> t.events[|b.events| + j] == Abandoned(b.pending[j].id)
  {
    AbandonExactly(b);
  }

  // ----- from a look to a key press ----------------------------------------------------------

  lemma OneOrderSubmitted(b: Bridge, observation: nat, a: Action, lane: int, delay: int, now: int) returns (t: Bridge)
    requires b.lanes <= 16 && Acceptable(b, observation, [a]) && Asks(b.lanes, a, lane, delay) && b.pending == []
    requires now - (b.observations[observation] + delay) <= 20_000_000
    ensures var due, id := b.observations[observation] + delay, b.nextAction + 1;
            && t == Submit(b, observation, [a], now) && t.pending == [Entry(due, id, lane)] && t.error == b.error && t.closed == b.closed
            && t.events == b.events + [Proposed(id, lane, delay, due, now)]
  {
    RefusesExactly(b, observation, [a]);
    ValidExactly(b.lanes, a);
    var orders := Validated(b.lanes, [a]).value;
    assert orders == [Order(lane, delay)] by { assert [a][0] == a; }
    t := Propose(b, orders[0], b.observations[observation], now);
    assert orders[..0] == [];
    assert ProposeAll(b, orders[..0], b.observations[observation], now) == b;
  }

  lemma OneTurnSends(t: Bridge, turn: Turn)
    requires |t.pending| == 1 && !t.error && !t.closed && t.pending[0].due <= turn.check && turn.now - t.pending[0].due <= 20_000_000
    requires !turn.raised
    ensures var e := t.pending[0];
            Dispatch(t, [turn]) == Dispatched(t.(pending := [], events := t.events + [Sent(e.id, e.lane, turn.now, turn.back, turn.now - e.due)]), false)
  {
    assert Dispatching(t, [turn], 0) == Dispatching(TakeTurn(t, turn), [turn], 1);
  }

  /** From a fresh bridge: a frame is looked at, the run is started, an action referring to
      the frame is submitted in time, and a dispatch that finds it due within 20 ms sends
      it, in the lane it names. */
  lemma ActionGoesOut(lanes: nat, observation: nat, receipt: int, pressed: int, a: Action, lane: int, delay: int, now: int, turn: Turn)
    requires lanes <= 16 && Asks(lanes, a, lane, delay)
    requires now - (receipt + delay) <= 20_000_000 && !turn.raised
    requires receipt + delay <= turn.check && turn.now - (receipt + delay) <= 20_000_000
    ensures var b := Start(Observe(Opened(lanes), observation, receipt), true, pressed);
            var d := Dispatch(Submit(b, observation, [a], now), [turn]);
            && !d.raised && d.bridge.pending == []
            && d.bridge.events == [Observed(observation, receipt), Began(pressed), Proposed(1, lane, delay, receipt + delay, now),
                                   Sent(1, lane, turn.now, turn.back, turn.now - (receipt + delay))]
  {
    var b := Start(Observe(Opened(lanes), observation, receipt), true, pressed);
    assert Asks(lanes, [a][0], lane, delay);
    assert Acceptable(b, observation, [a]);
    var t := OneOrderSubmitted(b, observation, a, lane, delay, now);
    OneTurnSends(t, turn);
  }

  // ----- the flags over whole runs -------------------------------------------------------------

  predicate Fails(step: BridgeProofs.Step) {
    step.WorkerFails? || step.CaptureFails?
  }

  predicate Stops(step: BridgeProofs.Step) {
    Fails(step) || step.BeginClose?
  }

  lemma StepSetsFlags(w: BridgeProofs.World, step: BridgeProofs.Step)
    requires BridgeProofs.Enabled(w, step) && (w.bridge.closed ==> w.bridge.stopped)
    ensures var b, t := w.bridge, BridgeProofs.Apply(w, step).bridge;
            && (t.error <==> b.error || Fails(step)) && (t.stopped <==> b.stopped || Stops(step))
            && (t.closed <==> b.closed || step.FinishClose?)
            && (t.started <==> b.started || (step.Press? && step.pressed && !b.error && !b.closed))
  {
    match step
    case Batch(source, actions, now) =>
      if Refuses(w.bridge, source, actions).None? {
        var t := BatchDone(w.bridge, Validated(w.bridge.lanes, actions).value, w.bridge.observations[source], now);
      }
    case Work(turns) => var n := DispatchExactly(w.bridge, turns);
    case FinishClose => CloseExactly(w.bridge);
    case _ =>
  }

  /** In every run the bridge is broken exactly if a thread failed, told to stop exactly if
      one did or a close began, and closed exactly if a close was finished. */
  lemma {:induction false} FlagsAreExact(w: BridgeProofs.World, steps: seq<BridgeProofs.Step>)
    requires BridgeProofs.Runs(w, steps) && (w.bridge.closed ==> w.bridge.stopped)
    ensures var b, t := w.bridge, BridgeProofs.After(w, steps).bridge;
            && (t.error <==> b.error || exists k :: 0 <= k < |steps| && Fails(steps[k]))
            && (t.stopped <==> b.stopped || exists k :: 0 <= k < |steps| && Stops(steps[k]))
            && (t.closed <==> b.closed || exists k :: 0 <= k < |steps| && steps[k].FinishClose?)
    decreases |steps|
  {
    if steps != [] {
      StepSetsFlags(w, steps[0]);
      FlagsAreExact(BridgeProofs.Apply(w, steps[0]), steps[1..]);
      assert forall k :: 0 < k < |steps| ==> steps[k] == steps[1..][k - 1];
      assert forall k :: 0 <= k < |steps| - 1 ==> steps[1..][k] == steps[k + 1];
    }
  }
}
