/** The bridge object: its methods do to its fields what BridgeRules says. */
module VisionBridge {
  import opened Options
  import opened BridgeRules

  class NativeVisionBridge {
    const lanes: nat
    var pending: seq<Entry>
    var events: seq<Log>
    var nextAction: nat
    var observations: map<nat, int>
    var started: bool
    var error: bool
    var stopped: bool
    var closed: bool

    ghost function View(): Bridge
      reads this
    {
      Bridge(lanes, pending, events, nextAction, observations, started, error, stopped, closed)
    }

    constructor (lanes: nat)
      ensures View() == Opened(lanes)
    {
      this.lanes := lanes;
      pending, events, nextAction, observations := [], [], 0, map[];
      started, error, stopped, closed := false, false, false, false;
    }

    /** heappush: the new entry goes before the first larger one. */
    method Push(e: Entry)
      modifies this`pending
      ensures pending == Insert(old(pending), e)
    {
      var i := 0;
      while i < |pending| && !Less(e, pending[i])
        invariant 0 <= i <= |pending| && pending == old(pending)
        invariant Insert(pending, e) == pending[..i] + Insert(pending[i..], e)
      {
        assert pending[i..][1..] == pending[i + 1..];
        i := i + 1;
      }
      pending := pending[..i] + [e] + pending[i..];
    }

    /** A returned frame is recorded with its local receipt time. */
    method Observe(observation: nat, receipt: int) returns (ok: bool)
      modifies this`observations, this`events
      ensures View() == BridgeRules.Observe(old(View()), observation, receipt)
      ensures ok <==> !error && !closed
    {
      if error || closed { return false; }
      observations := observations[observation := receipt];
      events := events + [Observed(observation, receipt)];
      ok := true;
    }

    /** pressed says whether the key press went through. */
    method Start(pressed: bool, now: int) returns (ok: bool)
      modifies this`started, this`events
      ensures View() == BridgeRules.Start(old(View()), pressed, now)
      ensures ok <==> !old(started) && started
    {
      if error || closed || started || !pressed { return false; }
      started := true;
      events := events + [Began(now)];
      ok := true;
    }

    method Queue(orders: seq<Order>, seen: int, now: int) returns (scheduled: nat, dropped: nat)
      modifies this`pending, this`events, this`nextAction
      ensures View() == ProposeAll(old(View()), orders, seen, now)
      ensures scheduled + dropped == |orders| == nextAction - old(nextAction)
      ensures scheduled == |pending| - |old(pending)|
    {
      scheduled, dropped := 0, 0;
      var k := 0;
      while k < |orders|
        invariant 0 <= k <= |orders|
        invariant View() == ProposeAll(old(View()), orders[..k], seen, now)
        invariant scheduled + dropped == k == nextAction - old(nextAction)
        invariant scheduled == |pending| - |old(pending)|
      {
        assert orders[..k + 1][..k] == orders[..k];
        var order := orders[k];
        var due := seen + order.delay;
        nextAction := nextAction + 1;
        events := events + [Proposed(nextAction, order.lane, order.delay, due, now)];
        if now - due > LATE {
          events := events + [Late(nextAction, now - due, AtSubmission)];
          dropped := dropped + 1;
        } else {
          Push(Entry(due, nextAction, order.lane));
          scheduled := scheduled + 1;
        }
        k := k + 1;
      }
      assert orders[..k] == orders;
    }

    /** All or nothing: the whole batch is validated before any of it is queued. */
    method Submit(observation: nat, actions: seq<Action>, now: int) returns (receipt: Receipt)
      modifies this
      ensures View() == BridgeRules.Submit(old(View()), observation, actions, now)
      ensures receipt.Refused? <==> Refuses(old(View()), observation, actions).Some?
      ensures receipt.Refused? ==> Some(receipt.why) == Refuses(old(View()), observation, actions) && View() == old(View())
      ensures receipt.Accepted? ==> receipt.scheduled + receipt.dropped == |actions| == nextAction - old(nextAction)
      ensures receipt.Accepted? ==> receipt.scheduled == |pending| - |old(pending)|
    {
      if |actions| > MAX_ACTIONS { return Refused(TooMany); }
      var orders := Validated(lanes, actions);
      if orders.None? { return Refused(Invalid); }
      if error || closed { return Refused(Broken); }
      if !started { return Refused(NotStarted); }
      if observation !in observations { return Refused(UnknownObservation); }
      if |pending| + |actions| > MAX_PENDING { return Refused(QueueFull); }
      if nextAction + |actions| > MAX_TOTAL { return Refused(EvidenceFull); }
      var scheduled, dropped := Queue(orders.value, observations[observation], now);
      receipt := Accepted(scheduled, dropped);
    }

    /** Sends or drops every action that is due, earliest first; what is left when it
        returns was not due at the last look at the clock. */
    method DispatchDue(turns: seq<Turn>) returns (raised: bool)
      modifies this`pending, this`events
      ensures Dispatched(View(), raised) == Dispatch(old(View()), turns)
    {
      if error || closed { return true; }
      var i := 0;
      while i < |turns| && pending != [] && pending[0].due <= turns[i].check
        invariant 0 <= i <= |turns|
        invariant !error && !closed
        invariant Dispatching(old(View()), turns, 0) == Dispatching(View(), turns, i)
      {
        ghost var before := View();
        var e, now := pending[0], turns[i].now;
        pending := pending[1..];
        if now - e.due > LATE {
          events := events + [Late(e.id, now - e.due, AtDispatch)];
          assert View() == TakeTurn(before, turns[i]);
        } else if turns[i].raised {
          assert View() == TakeTurn(before, turns[i]);
          return true;
        } else {
          events := events + [Sent(e.id, e.lane, now, turns[i].back, now - e.due)];
          assert View() == TakeTurn(before, turns[i]);
        }
        i := i + 1;
      }
      raised := false;
    }

    method Fail(now: int)
      modifies this`error, this`events, this`stopped
      ensures View() == BridgeRules.Fail(old(View()), now)
    {
      if !error {
        error := true;
        events := events + [Failed(now)];
      }
      stopped := true;
    }

    /** joined says whether the worker threads ended in time; if not, close raises. */
    method Close(joined: bool) returns (ok: bool)
      modifies this`stopped, this`pending, this`events, this`closed
      ensures ok <==> old(closed) || joined
      ensures ok ==> View() == BridgeRules.Close(old(View()).(stopped := if old(closed) then old(stopped) else true))
      ensures !ok ==> View() == old(View()).(stopped := true)
    {
      if closed { return true; }
      stopped := true;
      if !joined { return false; }
      ghost var start := View();
      while pending != []
        invariant Abandon(View()) == Abandon(start) && !closed
        decreases |pending|
      {
        var e := pending[0];
        pending := pending[1..];
        events := events + [Abandoned(e.id)];
      }
      closed := true;
      ok := true;
    }
  }
}
