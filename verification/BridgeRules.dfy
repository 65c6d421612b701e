/** The explicit-action scheduler as pure steps: what a submitted batch, one turn of
    the dispatch loop, a failure and a close do to the bridge's variables. */
module BridgeRules {
  import opened Options

  const LATE: int := 20_000_000
  const MAX_ACTIONS: nat := 128
  const MAX_PENDING: nat := 8192
  const MAX_TOTAL: nat := 32768

  datatype Entry = Entry(due: int, id: nat, lane: int)

  datatype Place = AtSubmission | AtDispatch

  datatype Log = Observed(observation: nat, receipt: int)
               | Began(at: int)
               | Proposed(id: nat, lane: int, delay: int, due: int, at: int)
               | Late(id: nat, lateness: int, place: Place)
               | Abandoned(id: nat)
               | Sent(id: nat, lane: int, at: int, back: int, lateness: int)
               | Failed(at: int)

  /** pending is the heap as the scheduler sees it: ordered, smallest first. */
  datatype Bridge = Bridge(lanes: nat, pending: seq<Entry>, events: seq<Log>, nextAction: nat,
                           observations: map<nat, int>, started: bool, error: bool, stopped: bool, closed: bool)

  function Opened(lanes: nat): Bridge {
    Bridge(lanes, [], [], 0, map[], false, false, false, false)
  }

  // ----- the queue ------------------------------------------------------------

  /** The heap compares (due, id); ids are never equal. */
  predicate Less(a: Entry, b: Entry) {
    a.due < b.due || (a.due == b.due && a.id < b.id)
  }

  predicate Sorted(q: seq<Entry>) {
    forall i, j :: 0 <= i < j < |q| ==> Less(q[i], q[j])
  }

  function Insert(q: seq<Entry>, e: Entry): (r: seq<Entry>)
    ensures |r| == |q| + 1
    ensures forall x :: x in r <==> x == e || x in q
  {
    if q == [] || Less(e, q[0]) then [e] + q else [q[0]] + Insert(q[1..], e)
  }

  function Ids(q: seq<Entry>): multiset<nat> {
    if q == [] then multiset{} else multiset{q[0].id} + Ids(q[1..])
  }

  lemma {:induction false} InsertKeepsQueue(q: seq<Entry>, e: Entry)
    requires Sorted(q) && forall x :: x in q ==> x.id != e.id
    ensures Sorted(Insert(q, e)) && Ids(Insert(q, e)) == Ids(q) + multiset{e.id}
  {
    if q == [] || Less(e, q[0]) {
      assert ([e] + q)[1..] == q;
    } else {
      InsertKeepsQueue(q[1..], e);
      var rest := Insert(q[1..], e);
      assert ([q[0]] + rest)[1..] == rest;
      assert forall x :: x in rest ==> Less(q[0], x);
    }
  }

  // ----- observing and starting -------------------------------------------------

  function Observe(b: Bridge, observation: nat, receipt: int): Bridge {
    if b.error || b.closed then b
    else b.(observations := b.observations[observation := receipt], events := b.events + [Observed(observation, receipt)])
  }

  function Start(b: Bridge, pressed: bool, now: int): Bridge {
    if b.error || b.closed || b.started || !pressed then b
    else b.(started := true, events := b.events + [Began(now)])
  }

  // ----- submitting -----------------------------------------------------------

  datatype LaneText = Letter(letter: char) | Number(number: int) | NoLane
  datatype Delay = Milliseconds(ms: real) | NotFinite
  datatype Action = Tap(lane: LaneText, delay: Delay) | Malformed

  /** Upper case as far as it can reach A to P; a dotless i also becomes I. */
  function Upper(c: char): char {
    if 'a' <= c <= 'z' then c - 32 as char else if c == '\U{131}' then 'I' else c
  }

  function LaneOf(lanes: nat, t: LaneText): Option<int> {
    var lane := match t
      case Letter(c) => Upper(c) as int - 'A' as int
      case Number(n) => n
      case NoLane => -1;
    if 0 <= lane < lanes then Some(lane) else None
  }

  /** Round half to even. */
  function Round(x: real): int {
    var down := x.Floor;
    var part := x - down as real;
    if part < 0.5 || (part == 0.5 && down % 2 == 0) then down else down + 1
  }

  datatype Order = Order(lane: int, delay: int)

  function Valid(lanes: nat, a: Action): Option<Order> {
    if a.Malformed? || LaneOf(lanes, a.lane).None? then None
    else if a.delay.NotFinite? || !(0.0 <= a.delay.ms <= 1000.0) then None
    else Some(Order(LaneOf(lanes, a.lane).value, Round(a.delay.ms * 1000000.0)))
  }

  /** The validated batch, or nothing if any action is invalid. */
  function Validated(lanes: nat, actions: seq<Action>): (orders: Option<seq<Order>>)
    ensures orders.Some? ==> |orders.value| == |actions|
    ensures orders.Some? <==> forall i :: 0 <= i < |actions| ==> Valid(lanes, actions[i]).Some?
    ensures orders.Some? ==> forall i :: 0 <= i < |actions| ==> Valid(lanes, actions[i]) == Some(orders.value[i])
  {
    if actions == [] then Some([])
    else
      var front := Validated(lanes, actions[..|actions| - 1]);
      var last := Valid(lanes, actions[|actions| - 1]);
      if front.None? || last.None? then None else Some(front.value + [last.value])
  }

  /** Why a batch is turned away, in the order the checks are made. */
  datatype Refusal = TooMany | Invalid | Broken | NotStarted | UnknownObservation | QueueFull | EvidenceFull

  datatype Receipt = Accepted(scheduled: nat, dropped: nat) | Refused(why: Refusal)

  function Refuses(b: Bridge, observation: nat, actions: seq<Action>): Option<Refusal> {
    if |actions| > MAX_ACTIONS then Some(TooMany)
    else if Validated(b.lanes, actions).None? then Some(Invalid)
    else if b.error || b.closed then Some(Broken)
    else if !b.started then Some(NotStarted)
    else if observation !in b.observations then Some(UnknownObservation)
    else if |b.pending| + |actions| > MAX_PENDING then Some(QueueFull)
    else if b.nextAction + |actions| > MAX_TOTAL then Some(EvidenceFull)
    else None
  }

  function Propose(b: Bridge, order: Order, receipt: int, now: int): Bridge {
    var due, id := receipt + order.delay, b.nextAction + 1;
    var proposed := b.(nextAction := id, events := b.events + [Proposed(id, order.lane, order.delay, due, now)]);
    if now - due > LATE then proposed.(events := proposed.events + [Late(id, now - due, AtSubmission)])
    else proposed.(pending := Insert(b.pending, Entry(due, id, order.lane)))
  }

  function ProposeAll(b: Bridge, orders: seq<Order>, receipt: int, now: int): Bridge {
    if orders == [] then b
    else Propose(ProposeAll(b, orders[..|orders| - 1], receipt, now), orders[|orders| - 1], receipt, now)
  }

  function Submit(b: Bridge, observation: nat, actions: seq<Action>, now: int): Bridge {
    if Refuses(b, observation, actions).Some? then b
    else ProposeAll(b, Validated(b.lanes, actions).value, b.observations[observation], now)
  }

  // ----- dispatching ----------------------------------------------------------

  /** The clock readings of one turn of the dispatch loop, and whether its tap raised. */
  datatype Turn = Turn(check: int, now: int, raised: bool, back: int)

  function TakeTurn(b: Bridge, t: Turn): Bridge
    requires b.pending != []
  {
    var e, popped := b.pending[0], b.(pending := b.pending[1..]);
    if t.now - e.due > LATE then popped.(events := b.events + [Late(e.id, t.now - e.due, AtDispatch)])
    else if t.raised then popped
    else popped.(events := b.events + [Sent(e.id, e.lane, t.now, t.back, t.now - e.due)])
  }

  predicate TapRaises(b: Bridge, t: Turn)
    requires b.pending != []
  {
    t.raised && t.now - b.pending[0].due <= LATE
  }

  datatype Dispatched = Dispatched(bridge: Bridge, raised: bool)

  /** The loop from turn i on, and whether it ended by a raise.  A list of turns that
      runs out is a check that finds nothing due. */
  function Dispatching(b: Bridge, turns: seq<Turn>, i: nat): Dispatched
    requires i <= |turns|
    decreases |turns| - i
  {
    if i == |turns| || b.pending == [] || turns[i].check < b.pending[0].due then Dispatched(b, false)
    else if TapRaises(b, turns[i]) then Dispatched(TakeTurn(b, turns[i]), true)
    else Dispatching(TakeTurn(b, turns[i]), turns, i + 1)
  }

  function Dispatch(b: Bridge, turns: seq<Turn>): Dispatched {
    if b.error || b.closed then Dispatched(b, true) else Dispatching(b, turns, 0)
  }

  // ----- failing and closing ---------------------------------------------------

  function Fail(b: Bridge, now: int): Bridge {
    if b.error then b.(stopped := true)
    else b.(error := true, stopped := true, events := b.events + [Failed(now)])
  }

  function Abandon(b: Bridge): Bridge
    ensures Abandon(b).pending == []
    decreases |b.pending|
  {
    if b.pending == [] then b
    else Abandon(b.(pending := b.pending[1..], events := b.events + [Abandoned(b.pending[0].id)]))
  }

  /** The second half of close, once the worker threads are gone. */
  function Close(b: Bridge): Bridge {
    if b.closed then b else Abandon(b).(closed := true)
  }
}
