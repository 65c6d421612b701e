/** The server's whole operations, poll and publish, are runs of the single steps the
    lease theorems are about. */
module LeaseRefinement {
  import opened Options
  import opened Wire
  import opened ServerRules
  import opened ClientRules
  import opened LeaseSystem
  import opened LeaseProofs

  /** The steps can be taken, and end there. */
  ghost predicate LeadsTo(s: Sys, steps: seq<Step>, t: Sys) {
    Runs(s, steps) && After(s, steps) == t
  }

  /** No publication is being written. */
  ghost predicate Ready(s: Sys) {
    Inv(s) && ServerFree(s)
  }

  lemma Once(s: Sys, step: Step) returns (t: Sys)
    requires Inv(s) && Enabled(s, step)
    ensures LeadsTo(s, [step], t) && t == Apply(s, step) && Inv(t)
  {
    StepKeepsInv(s, step);
    EnabledStepsRun(s, step);
    t := Apply(s, step);
    assert [step][1..] == [];
  }

  lemma {:induction false} Join(s: Sys, a: seq<Step>, t: Sys, b: seq<Step>, u: Sys)
    requires LeadsTo(s, a, t) && LeadsTo(t, b, u)
    ensures LeadsTo(s, a + b, u)
    decreases |a|
  {
    if a == [] {
      assert a + b == b;
    } else {
      assert (a + b)[1..] == a[1..] + b;
      Join(Apply(s, a[0]), a[1..], t, b, u);
    }
  }

  lemma Prepend(s: Sys, step: Step, t: Sys, rest: seq<Step>, u: Sys) returns (steps: seq<Step>)
    requires LeadsTo(s, [step], t) && LeadsTo(t, rest, u)
    ensures LeadsTo(s, steps, u)
  {
    steps := [step] + rest;
    Join(s, [step], t, rest, u);
  }

  // ----- what a poll finds in the channel ---------------------------------------------

  /** The packets in flight from the connection being served. */
  function Channel(s: Sys): seq<Packet> {
    if Served(s) then s.conns[s.server.client.value].up else []
  }

  predicate FromRaw(s: Sys) {
    Served(s) && s.conns[s.server.client.value].raw
  }

  /** The answers to receive, from i on, are what a channel holding these packets can
      give: the packets in order, and a short one only from a raw peer. */
  predicate Feeds(answers: seq<Recv>, i: nat, up: seq<Packet>, raw: bool)
    requires i <= |answers|
    decreases |answers| - i
  {
    i == |answers| ||
    match answers[i]
    case Got(p) => up != [] && up[0] == p && Feeds(answers, i + 1, up[1..], raw)
    case RecvInterrupted => Feeds(answers, i + 1, up, raw)
    case WrongSize => raw
    case _ => true
  }

  // ----- accepting ----------------------------------------------------------------------

  predicate OpenRaw(s: Sys) {
    FromRaw(s) && s.conns[s.server.client.value].open
  }

  lemma EarlySend(s: Sys, p: Packet) returns (step: Step, t: Sys)
    requires Ready(s) && OpenRaw(s)
    ensures LeadsTo(s, [step], t) && Early(s, t, [p]) && OpenRaw(t)
  {
    step := SendRaw(s.server.client.value, p);
    t := Once(s, step);
  }

  /** The peer has sent these packets, and nothing else has happened. */
  ghost predicate Early(s: Sys, t: Sys, early: seq<Packet>) {
    && Ready(t) && t.server == s.server && t.delivered == s.delivered
    && Served(t) && FromRaw(t) == FromRaw(s) && Channel(t) == Channel(s) + early
  }

  lemma EarlyFirst(s: Sys, u: Sys, t: Sys, early: seq<Packet>)
    requires early != [] && Early(s, u, [early[0]]) && Early(u, t, early[1..])
    ensures Early(s, t, early)
  {
    assert Channel(s) + early == (Channel(s) + [early[0]]) + early[1..];
  }

  /** The packets a raw peer had sent before it was accepted. */
  lemma {:induction false} EarlySends(s: Sys, early: seq<Packet>) returns (steps: seq<Step>, t: Sys)
    requires Ready(s) && Served(s) && (early == [] || OpenRaw(s))
    ensures LeadsTo(s, steps, t) && Early(s, t, early)
    decreases |early|
  {
    if early == [] {
      steps, t := [], s;
      assert Channel(s) + [] == Channel(s);
    } else {
      var step, u := EarlySend(s, early[0]);
      var rest;
      rest, t := EarlySends(u, early[1..]);
      EarlyFirst(s, u, t, early);
      steps := Prepend(s, step, u, rest, t);
    }
  }

  /** Accepting leaves the server as it was, or is a new connection. */
  lemma AcceptIsSteps(s: Sys, v: Server, raw: bool, early: seq<Packet>) returns (steps: seq<Step>, t: Sys)
    requires Ready(s) && (raw || early == [])
    requires v == s.server || (s.server.client.None? && v == s.server.(client := Some(|s.conns|)))
    ensures LeadsTo(s, steps, t) && Ready(t) && t.server == v && t.delivered == s.delivered
    ensures v == s.server ==> Channel(t) == Channel(s) && FromRaw(t) == FromRaw(s)
    ensures v != s.server ==> Served(t) && Channel(t) == early && FromRaw(t) == raw
  {
    if v == s.server {
      steps, t := [], s;
    } else {
      var u := Once(s, Connect(raw));
      var rest;
      rest, t := EarlySends(u, early);
      steps := Prepend(s, Connect(raw), u, rest, t);
    }
  }

  // ----- receiving -----------------------------------------------------------------------

  /** The system one packet later. */
  lemma TakeOne(s: Sys) returns (t: Sys)
    requires Ready(s) && Served(s) && Channel(s) != []
    ensures LeadsTo(s, [TakePacket], t) && Ready(t) && t.delivered == s.delivered && t.server == Handle(s.server, Channel(s)[0])
    ensures t.server.client.Some? ==> Served(t) && Channel(t) == Channel(s)[1..] && FromRaw(t) == FromRaw(s)
  {
    t := Once(s, TakePacket);
    HandleRaises(s.server, Channel(s)[0]);
    TakeStepIs(s);
  }

  lemma DropOne(s: Sys, step: Step, kind: Kind) returns (t: Sys)
    requires Ready(s) && Enabled(s, step)
    requires (step == TakeShort && kind == ProtocolError) || (step == LoseClient && kind == Disconnected) ||
             (step == OverflowClient && kind == Overflow)
    ensures LeadsTo(s, [step], t) && Ready(t) && t.delivered == s.delivered && t.server == Drop(s.server, kind)
  {
    t := Once(s, step);
    DropStepIs(s, kind);
  }

  /** Where the receive loop stops, and what it has taken by then. */
  ghost predicate Drained(s: Sys, t: Sys, answers: seq<Recv>, max: nat, i: nat, n: nat)
    requires i <= |answers| && n <= max
  {
    var (v, m) := Drain(s.server, answers, max, i, n);
    && Ready(t) && t.server == v && t.delivered == s.delivered
    && (v.client.Some? ==> Served(t) && FromRaw(t) == FromRaw(s) && |Channel(t)| + m == |Channel(s)| + n)
  }

  lemma DrainStops(s: Sys, answers: seq<Recv>, max: nat, i: nat, n: nat)
    requires Ready(s) && i <= |answers| && n <= max
    requires s.server.client.None? || n == max || i == |answers| || answers[i].NothingYet?
    ensures Drained(s, s, answers, max, i, n)
  {
  }

  lemma DrainDrops(s: Sys, answers: seq<Recv>, max: nat, i: nat, n: nat) returns (steps: seq<Step>, t: Sys)
    requires Ready(s) && Served(s) && i < |answers| && n < max && (answers[i].WrongSize? ==> FromRaw(s))
    requires answers[i].WrongSize? || answers[i].RecvFailed? || answers[i].Closed?
    ensures LeadsTo(s, steps, t) && Drained(s, t, answers, max, i, n)
  {
    var step := if answers[i].WrongSize? then TakeShort else LoseClient;
    t := DropOne(s, step, if answers[i].WrongSize? then ProtocolError else Disconnected);
    steps := [step];
  }

  lemma DrainGoesOn(s: Sys, u: Sys, t: Sys, answers: seq<Recv>, max: nat, i: nat, n: nat, more: nat)
    requires s.server.client.Some? && i < |answers| && n < max && more <= 1
    requires if answers[i].Got? then more == 1 && u.server == Handle(s.server, answers[i].packet)
             else answers[i].RecvInterrupted? && more == 0 && u == s
    requires u.delivered == s.delivered
    requires u.server.client.Some? ==> FromRaw(u) == FromRaw(s) && |Channel(u)| + more == |Channel(s)|
    requires Drained(u, t, answers, max, i + 1, n + more)
    ensures Drained(s, t, answers, max, i, n)
  {
  }

  /** The answers from i on are possible for the connection being served, if any. */
  predicate Fed(s: Sys, answers: seq<Recv>, i: nat)
    requires i <= |answers|
  {
    s.server.client.Some? ==> Feeds(answers, i, Channel(s), FromRaw(s))
  }

  /** A packet received is the one at the head of the channel, and the rest stays fed. */
  lemma TakeFed(s: Sys, answers: seq<Recv>, i: nat) returns (t: Sys)
    requires Ready(s) && s.server.client.Some? && i < |answers| && answers[i].Got? && Fed(s, answers, i)
    ensures LeadsTo(s, [TakePacket], t) && Ready(t) && Fed(t, answers, i + 1)
    ensures t.server == Handle(s.server, answers[i].packet) && t.delivered == s.delivered
    ensures t.server.client.Some? ==> FromRaw(t) == FromRaw(s) && |Channel(t)| + 1 == |Channel(s)|
  {
    t := TakeOne(s);
  }

  lemma DrainGot(s: Sys, u: Sys, rest: seq<Step>, t: Sys, answers: seq<Recv>, max: nat, i: nat, n: nat) returns (steps: seq<Step>)
    requires s.server.client.Some? && i < |answers| && n < max && answers[i].Got?
    requires LeadsTo(s, [TakePacket], u) && u.server == Handle(s.server, answers[i].packet) && u.delivered == s.delivered
    requires u.server.client.Some? ==> FromRaw(u) == FromRaw(s) && |Channel(u)| + 1 == |Channel(s)|
    requires LeadsTo(u, rest, t) && Drained(u, t, answers, max, i + 1, n + 1)
    ensures LeadsTo(s, steps, t) && Drained(s, t, answers, max, i, n)
  {
    DrainGoesOn(s, u, t, answers, max, i, n, 1);
    steps := Prepend(s, TakePacket, u, rest, t);
  }

  /** The receive loop of a poll takes the packets one by one, and stops as it does. */
  lemma {:induction false} DrainIsSteps(s: Sys, answers: seq<Recv>, max: nat, i: nat, n: nat) returns (steps: seq<Step>, t: Sys)
    requires Ready(s) && i <= |answers| && n <= max && Fed(s, answers, i)
    ensures LeadsTo(s, steps, t) && Drained(s, t, answers, max, i, n)
    decreases |answers| - i
  {
    if s.server.client.None? || n == max || i == |answers| || answers[i].NothingYet? {
      steps, t := [], s;
      DrainStops(s, answers, max, i, n);
    } else if answers[i].RecvInterrupted? {
      steps, t := DrainIsSteps(s, answers, max, i + 1, n);
      DrainGoesOn(s, s, t, answers, max, i, n, 0);
    } else if answers[i].Got? {
      var u := TakeFed(s, answers, i);
      var rest;
      rest, t := DrainIsSteps(u, answers, max, i + 1, n + 1);
      steps := DrainGot(s, u, rest, t, answers, max, i, n);
    } else {
      steps, t := DrainDrops(s, answers, max, i, n);
    }
  }

  // ----- a whole poll ----------------------------------------------------------------------

  /** The overflow test, the reply and the hand-over that end a poll. */
  lemma EndsIsSteps(s: Sys, full: bool, send: Send) returns (steps: seq<Step>, t: Sys)
    requires Ready(s) && (full && s.server.client.Some? ==> Served(s) && (FromRaw(s) || Channel(s) != []))
    ensures var u := Respond(if full && s.server.client.Some? then Drop(s.server, Overflow) else s.server, send);
            && LeadsTo(s, steps, t) && Ready(t) && t.server == u.(deferred := []) && t.delivered == s.delivered + u.deferred
  {
    var first, a := [], s;
    if full && s.server.client.Some? {
      first := [OverflowClient];
      a := DropOne(s, OverflowClient, Overflow);
    }
    var b := ReplyOne(a, send);
    t := DeliverOne(b);
    Join(a, [Reply(send)], b, [Deliver], t);
    steps := first + ([Reply(send)] + [Deliver]);
    Join(s, first, a, [Reply(send)] + [Deliver], t);
  }

  lemma ReplyOne(s: Sys, send: Send) returns (t: Sys)
    requires Ready(s)
    ensures LeadsTo(s, [Reply(send)], t) && Ready(t) && t.server == Respond(s.server, send) && t.delivered == s.delivered
  {
    t := Once(s, Reply(send));
    ReplyTouches(s, send);
  }

  lemma ReplyTouches(s: Sys, send: Send)
    requires Ok(s.server) && (s.server.client.Some? ==> s.server.client.value == |s.conns| - 1)
    ensures var t := ReplyStep(s, send);
            t.server == Respond(s.server, send) && t == s.(server := t.server, conns := t.conns)
  {
    if s.server.client.Some? { ReplyStepIs(s, send); }
  }

  lemma DeliverOne(s: Sys) returns (t: Sys)
    requires Ready(s)
    ensures LeadsTo(s, [Deliver], t) && Ready(t)
    ensures t.server == s.server.(deferred := []) && t.delivered == s.delivered + s.server.deferred
  {
    t := Once(s, Deliver);
  }

  /** The poll ends with its client still there, its capacity used and more waiting. */
  predicate Overflows(v: Server, op: Op)
    requires op.Poll?
  {
    var (w, m) := Drain(v, op.answers, op.max, 0, 0);
    w.client.Some? && m == op.max && op.more
  }

  /** What the poll's environment answered is possible: a newly accepted connection is
      the next one, and packets come from the channel of the connection served, which for
      a new one holds what a raw peer had sent early. */
  predicate Plausible(s: Sys, op: Op, raw: bool, early: seq<Packet>)
    requires op.Poll?
  {
    var (v, threw) := AcceptClients(s.server, op.tries);
    var joined := v.client != s.server.client;
    var up, rogue := if joined then early else Channel(s), if joined then raw else FromRaw(s);
    && (raw || early == []) && (joined ==> v.client == Some(|s.conns|))
    && (!threw && v.client.Some? ==> Feeds(op.answers, 0, up, rogue))
    && (!threw && Overflows(v, op) ==> rogue || op.max < |up|)
  }

  /** What a poll does to the server's variables and hands to its callbacks, whatever it
      accepts, receives, rejects or loses, is what a run of single steps does. */
  lemma PollIsSteps(s: Sys, op: Op, raw: bool, early: seq<Packet>) returns (steps: seq<Step>, t: Sys)
    requires Ready(s) && op.Poll? && Plausible(s, op, raw, early)
    ensures LeadsTo(s, steps, t) && Ready(t) && t.server == Operate(s.server, op)
    ensures t.delivered == s.delivered + if AcceptClients(s.server, op.tries).1 then [] else Loaded(s.server, op).deferred
  {
    var (v, threw) := AcceptClients(s.server, op.tries);
    AcceptKeepsClient(s.server, op.tries, 0);
    var first, a := AcceptIsSteps(s, v, raw, early);
    if threw {
      steps, t := first, a;
      assert s.delivered + [] == s.delivered;
    } else {
      var second, b := DrainIsSteps(a, op.answers, op.max, 0, 0);
      var (w, m) := Drain(v, op.answers, op.max, 0, 0);
      var third;
      third, t := EndsIsSteps(b, m == op.max && op.more, op.reply);
      Join(a, second, b, third, t);
      steps := first + (second + third);
      Join(s, first, a, second + third, t);
    }
  }

  // ----- a whole publication -----------------------------------------------------------------

  lemma WriteOne(s: Sys) returns (t: Sys)
    requires Inv(s) && s.writing.Some? && s.writing.value.done < FRAME_BYTES
    ensures LeadsTo(s, [WriteByte], t) && Inv(t) && t == s.(memory := t.memory, writing := t.writing)
    ensures t.writing.Some? && t.writing.value == s.writing.value.(done := s.writing.value.done + 1)
  {
    t := Once(s, WriteByte);
  }

  lemma {:induction false} WriteAll(s: Sys) returns (steps: seq<Step>, t: Sys)
    requires Inv(s) && s.writing.Some?
    ensures LeadsTo(s, steps, t) && Inv(t) && t == s.(memory := t.memory, writing := t.writing)
    ensures t.writing.Some? && t.writing.value == s.writing.value.(done := FRAME_BYTES)
    decreases FRAME_BYTES - s.writing.value.done
  {
    if s.writing.value.done == FRAME_BYTES {
      steps, t := [], s;
    } else {
      var u := WriteOne(s);
      var rest;
      rest, t := WriteAll(u);
      steps := Prepend(s, WriteByte, u, rest, t);
    }
  }

  /** A publication too: one byte after another, then the reply to a waiting request. */
  lemma PublishIsSteps(s: Sys, image: seq<Byte>, send: Send) returns (steps: seq<Step>, t: Sys)
    requires Ready(s) && |image| == FRAME_BYTES
    ensures LeadsTo(s, steps, t) && Ready(t) && t.server == Operate(s.server, Publish(send))
    ensures t.history == s.history + [image] && t.delivered == s.delivered
  {
    var a := Once(s, BeginPublish(image));
    var writes, b := WriteAll(a);
    t := PublishEnds(b, send);
    Join(a, writes, b, [EndPublish(send)], t);
    steps := [BeginPublish(image)] + (writes + [EndPublish(send)]);
    Join(s, [BeginPublish(image)], a, writes + [EndPublish(send)], t);
  }

  lemma PublishEnds(s: Sys, send: Send) returns (t: Sys)
    requires Inv(s) && s.writing.Some? && s.writing.value.done == FRAME_BYTES
    ensures LeadsTo(s, [EndPublish(send)], t) && Ready(t) && t.server == Operate(s.server, Publish(send))
    ensures t.history == s.history + [s.writing.value.image] && t.delivered == s.delivered
  {
    t := Once(s, EndPublish(send));
    PublishedKeepsOk(s.server);
    ReplyTouches(Installed(s), send);
  }
}
