/** Every step keeps the joint invariant, and what follows for whole runs. */
module LeaseProofs {
  import opened Options
  import opened Wire
  import opened ServerRules
  import opened ClientRules
  import opened LeaseSystem

  // ----- the lease, one step at a time -----------------------------------------

  lemma LeaseHead(ps: seq<Packet>)
    requires ps != []
    ensures IsLease(ps[0]) ==> LeaseOnly(ps) == [ps[0]] + LeaseOnly(ps[1..]) && LeaseOnly(ps)[0] == ps[0]
    ensures IsLease(ps[0]) ==> LeaseOnly(ps)[1..] == LeaseOnly(ps[1..]) && InputsOnly(ps) == InputsOnly(ps[1..])
    ensures !IsLease(ps[0]) ==> LeaseOnly(ps) == LeaseOnly(ps[1..])
    ensures InputsOnly(ps) == (if IsInput(ps[0]) then [ps[0]] else []) + InputsOnly(ps[1..])
  {
  }

  /** Taking the next packet off the channel never looks like a protocol error. */
  lemma TakeKeepsJoint(v: Server, k: Conn, history: seq<seq<Byte>>)
    requires Ok(v) && v.client.Some? && Joint(v, k, history) && k.up != []
    requires IsLease(k.up[0]) || IsInput(k.up[0])
    requires k.reader.client.lastSequence <= v.sequence
    ensures var t := Handle(v, k.up[0]);
            && Ok(t) && t.client == v.client
            && t.deferred == v.deferred + (if IsInput(k.up[0]) then [EventOf(k.up[0])] else [])
            && t.slotSequence == v.slotSequence && t.sequence == v.sequence && t.latest == v.latest
    ensures Joint(Handle(v, k.up[0]), k.(up := k.up[1..]), history)
    ensures Handle(v, k.up[0]).leased == v.leased || Handle(v, k.up[0]).leased < 0
  {
    LeaseHead(k.up);
    HandleKeepsOk(v, k.up[0]);
  }

  lemma ReplyKeepsJoint(v: Server, k: Conn, history: seq<seq<Byte>>, send: Send)
    requires Ok(v) && v.client.Some? && Joint(v, k, history)
    ensures var t := Respond(v, send);
            && Ok(t) && t.slotSequence == v.slotSequence && t.sequence == v.sequence && t.latest == v.latest
            && (t.client.None? ==> t.deferred == v.deferred + [Event(Disconnected, 0)])
            && (t.client.Some? ==> t.client == v.client && t.deferred == v.deferred)
            && (t.client.Some? ==> Joint(t, if SendsReply(v, send) then k.(down := k.down + [Arm(v).reply]) else k, history))
    ensures SendsReply(v, send) ==> k.down == [] && !k.reader.pc.Copying? && !k.reader.pc.FinalRelease?
    ensures SendsReply(v, send) ==> Acceptable(k.reader.client, Arm(v).reply) && Arm(v).reply.extra <= v.sequence
  {
    RespondKeepsOk(v, send);
  }

  lemma PublishKeepsJoint(v: Server, k: Conn, history: seq<seq<Byte>>, image: seq<Byte>)
    requires Ok(v) && v.client.Some? && Joint(v, k, history)
    ensures Ok(Published(v)) && Joint(Published(v), k, history + [image])
  {
    PublishedKeepsOk(v);
  }

  lemma EnterKeepsJoint(v: Server, k: Conn, history: seq<seq<Byte>>)
    requires Joint(v, k, history) && k.reader.pc.Idle?
    ensures Joint(v, k.(reader := k.reader.(pc := Enter(k.reader.client))), history)
  {
  }

  lemma InputKeepsJoint(v: Server, k: Conn, history: seq<seq<Byte>>, p: Packet)
    requires Joint(v, k, history) && IsInput(p)
    ensures Joint(v, SentOn(k, p), history)
  {
    FiltersAppend(k.up, p);
  }

  // ----- one answer to a served client -------------------------------------------

  /** The answers the environment of the served client can give at this point. */
  predicate Answerable(k: Conn, a: Answer, history: seq<seq<Byte>>) {
    && Fits(k.reader.pc, a)
    && (a.Receiving? ==> !a.receive.EndOfFile?)
    && (a.Receiving? && a.receive.Arrived? ==> k.down != [] && a.receive.packet == k.down[0] && a.receive.whole)
    && (a.Reading? ==> NextByte(k.reader.pc, a.byte, history))
  }

  /** The byte the copy sees next is the published frame's. */
  predicate NextByte(pc: Pc, b: Byte, history: seq<seq<Byte>>) {
    && pc.Copying? && 0 < pc.sequence <= |history|
    && |pc.copied| < FRAME_BYTES == |history[pc.sequence - 1]| && b == history[pc.sequence - 1][|pc.copied|]
  }

  lemma SendKeepsJoint(v: Server, k: Conn, history: seq<seq<Byte>>, send: Send)
    requires Ok(v) && Joint(v, k, history) && Fits(k.reader.pc, Sending(send)) && ClientOk(k, history)
    ensures Joint(v, AnswerConn(k, Sending(send)), history)
  {
    FiltersAppend(k.up, Offer(k.reader));
  }

  lemma WaitKeepsJoint(v: Server, k: Conn, history: seq<seq<Byte>>, wait: Wait)
    requires Joint(v, k, history) && Fits(k.reader.pc, Waiting(wait)) && ClientOk(k, history)
    ensures Joint(v, AnswerConn(k, Waiting(wait)), history)
  {
  }

  lemma ReceiveKeepsJoint(v: Server, k: Conn, history: seq<seq<Byte>>, r: Receive)
    requires Ok(v) && Joint(v, k, history) && ClientOk(k, history) && Answerable(k, Receiving(r), history)
    ensures Joint(v, AnswerConn(k, Receiving(r)), history)
  {
  }

  lemma ByteKeepsJoint(v: Server, k: Conn, history: seq<seq<Byte>>, b: Byte)
    requires Ok(v) && Joint(v, k, history) && ClientOk(k, history) && Answerable(k, Reading(b), history)
    ensures Joint(v, AnswerConn(k, Reading(b)), history)
  {
  }

  // ----- what a client keeps on its own -------------------------------------------

  /** A finished final release that can still succeed holds the published frame. */
  predicate FrameIntact(pc: Pc, history: seq<seq<Byte>>) {
    pc.FinalRelease? ==> 0 < pc.number <= |history| && pc.image == history[pc.number - 1]
  }

  lemma RecordRead(results: seq<Read>, history: seq<seq<Byte>>, read: Read, n: nat)
    requires ReadsOk(results, history) && ReadsBelow(results, n + 1) && read.code != Protocol
    requires read.code == Success ==> 0 < n == read.sequence <= |history| && read.image == history[n - 1] && ReadsBelow(results, n)
    ensures ReadsOk(results + [read], history) && ReadsBelow(results + [read], n + 1)
  {
  }

  /** A call that fails, with any code but Protocol, leaves the client as it was. */
  lemma FailKeepsClientOk(k: Conn, code: Result, history: seq<seq<Byte>>)
    requires ClientOk(k, history) && code != Protocol && code != Success
    ensures ClientOk(Settle(k, k.reader.(pc := Fail(code))), history)
  {
    RecordRead(k.results, history, Read(code, 0, []), k.reader.client.lastSequence);
  }

  lemma SendKeepsClientOk(k: Conn, send: Send, history: seq<seq<Byte>>)
    requires ClientOk(k, history) && Fits(k.reader.pc, Sending(send))
    requires send == Sent || send == Blocked ==> FrameIntact(k.reader.pc, history)
    ensures ClientOk(AnswerConn(k, Sending(send)), history)
  {
    if send == Gone || send == SendError {
      FailKeepsClientOk(k, SendFailure(send), history);
    } else if k.reader.pc.FinalRelease? {
      RecordRead(k.results, history, Read(Success, k.reader.pc.number, k.reader.pc.image), k.reader.pc.number);
    }
  }

  lemma WaitKeepsClientOk(k: Conn, wait: Wait, history: seq<seq<Byte>>)
    requires ClientOk(k, history) && Fits(k.reader.pc, Waiting(wait))
    ensures ClientOk(AnswerConn(k, Waiting(wait)), history)
  {
    if wait != Ready {
      FailKeepsClientOk(k, WaitFailure(wait), history);
    }
  }

  lemma ReceiveKeepsClientOk(k: Conn, r: Receive, history: seq<seq<Byte>>)
    requires ClientOk(k, history) && Fits(k.reader.pc, Receiving(r))
    requires r.Arrived? ==> k.down != [] && r.packet == k.down[0] && r.whole
    ensures ClientOk(AnswerConn(k, Receiving(r)), history)
  {
    if r.EndOfFile? || r.ReceiveError? {
      FailKeepsClientOk(k, if r.EndOfFile? then Lost else SystemError, history);
    }
  }

  lemma ByteKeepsClientOk(k: Conn, b: Byte, history: seq<seq<Byte>>)
    requires ClientOk(k, history) && Fits(k.reader.pc, Reading(b))
    ensures ClientOk(AnswerConn(k, Reading(b)), history)
  {
  }

  lemma AnswerKeepsClientOk(k: Conn, a: Answer, history: seq<seq<Byte>>)
    requires ClientOk(k, history) && Fits(k.reader.pc, a)
    requires a.Receiving? && a.receive.Arrived? ==> k.down != [] && a.receive.packet == k.down[0] && a.receive.whole
    requires a.Sending? && (a.send == Sent || a.send == Blocked) ==> FrameIntact(k.reader.pc, history)
    ensures ClientOk(AnswerConn(k, a), history)
  {
    match a
    case Sending(send) => SendKeepsClientOk(k, send, history);
    case Waiting(wait) => WaitKeepsClientOk(k, wait, history);
    case Receiving(r) => ReceiveKeepsClientOk(k, r, history);
    case Reading(b) => ByteKeepsClientOk(k, b, history);
  }

  lemma JointFrameIntact(v: Server, k: Conn, history: seq<seq<Byte>>)
    requires Joint(v, k, history)
    ensures FrameIntact(k.reader.pc, history)
    ensures k.reader.pc.SendRelease? || k.reader.pc.FinalRelease? ==> k.reader.client.releasePacket.op == RELEASE
  {
  }

  lemma SentLeaseDelivery(k: Conn, p: Packet)
    requires DeliveryOk(k, true) && IsLease(p)
    ensures DeliveryOk(k.(up := k.up + [p]), true)
  {
    FiltersAppend(k.up, p);
    assert InputsOnly(k.up) + [] == InputsOnly(k.up);
  }

  /** Delivery does not look at the reader, its results or the downward channel. */
  lemma SameDelivery(k: Conn, l: Conn, serving: bool)
    requires DeliveryOk(k, serving)
    requires l.raw == k.raw && l.up == k.up && l.sent == k.sent && l.handled == k.handled && l.events == k.events
    ensures DeliveryOk(l, serving)
  {
  }

  lemma AnswerKeepsDelivery(k: Conn, a: Answer, serving: bool)
    requires DeliveryOk(k, serving) && Fits(k.reader.pc, a)
    requires a.Receiving? && a.receive.Arrived? ==> k.down != []
    requires a.Sending? && a.send == Sent ==> serving && IsLease(Offer(k.reader))
    ensures DeliveryOk(AnswerConn(k, a), serving) && AnswerConn(k, a).events == k.events && AnswerConn(k, a).raw == k.raw
  {
    var l := AnswerConn(k, a);
    if a.Sending? && a.send == Sent {
      SentLeaseDelivery(k, Offer(k.reader));
      SameDelivery(k.(up := k.up + [Offer(k.reader)]), l, serving);
    } else {
      SameDelivery(k, l, serving);
    }
  }

  // ----- replacing one connection --------------------------------------------------

  lemma {:induction false} SameEvents(conns: seq<Conn>, c: nat, k: Conn)
    requires c < |conns| && k.events == conns[c].events
    ensures AllEvents(conns[c := k]) == AllEvents(conns)
  {
    var n := |conns| - 1;
    if c < n {
      assert conns[c := k][..n] == conns[..n][c := k];
      SameEvents(conns[..n], c, k);
    } else {
      assert conns[c := k][..n] == conns[..n];
    }
  }

  lemma MoreEvents(conns: seq<Conn>, k: Conn, more: seq<Event>)
    requires conns != [] && k.events == conns[|conns| - 1].events + more
    ensures AllEvents(conns[|conns| - 1 := k]) == AllEvents(conns) + more
  {
    var n := |conns| - 1;
    assert conns[n := k][..n] == conns[..n];
  }

  lemma PutPeer(conns: seq<Conn>, c: nat, k: Conn, history: seq<seq<Byte>>)
    requires PeersOk(conns, history) && c < |conns| && PeerOk(k, history)
    ensures PeersOk(conns[c := k], history)
  {
  }

  /** Connection c, the one served if any is, is replaced. */
  lemma PutDelivery(conns: seq<Conn>, c: nat, k: Conn, before: Option<nat>, after: Option<nat>)
    requires DeliveriesOk(conns, before) && c < |conns| && DeliveryOk(k, after == Some(c))
    requires before == after || (before == Some(c) && after == None)
    ensures DeliveriesOk(conns[c := k], after)
  {
    forall d: nat | d < |conns|
      ensures DeliveryOk(conns[c := k][d], after == Some(d))
    {
      assert DeliveryOk(conns[d], before == Some(d));
    }
  }

  lemma PutServed(v: Server, conns: seq<Conn>, c: nat, k: Conn, history: seq<seq<Byte>>)
    requires ServedOk(v, conns, history) && c < |conns| && (v.client == Some(c) ==> PairOk(v, k, history))
    ensures ServedOk(v, conns[c := k], history)
  {
  }

  lemma MemoryHasNoClients(s: Sys, conns: seq<Conn>)
    requires MemoryOk(s)
    ensures MemoryOk(s.(conns := conns))
  {
  }

  lemma ClientMove(s: Sys, c: nat, k: Conn)
    requires Inv(s) && c < |s.conns| && k.events == s.conns[c].events
    requires PeerOk(k, s.history) && DeliveryOk(k, Serving(s, c))
    requires Serving(s, c) ==> PairOk(s.server, k, s.history)
    ensures Inv(s.(conns := s.conns[c := k]))
  {
    SameEvents(s.conns, c, k);
    PutPeer(s.conns, c, k, s.history);
    PutDelivery(s.conns, c, k, s.server.client, s.server.client);
    PutServed(s.server, s.conns, c, k, s.history);
    MemoryHasNoClients(s, s.conns[c := k]);
  }

  lemma MemoryIgnoresClients(s: Sys, t: Server, conns: seq<Conn>)
    requires MemoryOk(s) && ServerFree(s) && Ok(t) && t.slotSequence == s.server.slotSequence && t.sequence == s.server.sequence
    ensures MemoryOk(s.(server := t, conns := conns))
  {
  }

  lemma ServeAfter(v: Server, t: Server, conns: seq<Conn>, k: Conn, history: seq<seq<Byte>>)
    requires conns != [] && v.client == Some(|conns| - 1) && (t.client == v.client || t.client.None?)
    requires t.client.Some? ==> PairOk(t, k, history)
    ensures ServedOk(t, conns[|conns| - 1 := k], history)
  {
  }

  /** What a server move leaves of the connections. */
  lemma ConnsAfter(v: Server, t: Server, conns: seq<Conn>, k: Conn, history: seq<seq<Byte>>)
    requires PeersOk(conns, history) && DeliveriesOk(conns, v.client)
    requires conns != [] && v.client == Some(|conns| - 1) && (t.client == v.client || t.client.None?)
    requires PeerOk(k, history) && DeliveryOk(k, t.client.Some?) && (t.client.Some? ==> PairOk(t, k, history))
    ensures var after := conns[|conns| - 1 := k];
            PeersOk(after, history) && DeliveriesOk(after, t.client) && ServedOk(t, after, history)
  {
    PutPeer(conns, |conns| - 1, k, history);
    PutDelivery(conns, |conns| - 1, k, v.client, t.client);
    ServeAfter(v, t, conns, k, history);
  }

  lemma EventsBalance(delivered: seq<Event>, deferred: seq<Event>, more: seq<Event>, conns: seq<Conn>, k: Conn)
    requires conns != [] && delivered + deferred == AllEvents(conns) && k.events == conns[|conns| - 1].events + more
    ensures delivered + (deferred + more) == AllEvents(conns[|conns| - 1 := k])
  {
    MoreEvents(conns, k, more);
    assert delivered + (deferred + more) == (delivered + deferred) + more;
  }

  /** The server changes its variables and its connection, and raises new events. */
  lemma ServerMove(s: Sys, t: Server, k: Conn, more: seq<Event>)
    requires Inv(s) && ServerFree(s) && Served(s)
    requires Ok(t) && t.slotSequence == s.server.slotSequence && t.sequence == s.server.sequence
    requires t.client == s.server.client || t.client.None?
    requires t.deferred == s.server.deferred + more && k.events == s.conns[|s.conns| - 1].events + more
    requires PeerOk(k, s.history) && DeliveryOk(k, t.client.Some?)
    requires t.client.Some? ==> PairOk(t, k, s.history)
    ensures Inv(s.(server := t, conns := s.conns[|s.conns| - 1 := k]))
  {
    ConnsAfter(s.server, t, s.conns, k, s.history);
    EventsBalance(s.delivered, s.server.deferred, more, s.conns, k);
    MemoryIgnoresClients(s, t, s.conns[|s.conns| - 1 := k]);
  }

  // ----- client steps ---------------------------------------------------------------

  lemma ConnFacts(s: Sys, c: nat)
    requires Inv(s) && c < |s.conns|
    ensures PeerOk(s.conns[c], s.history) && DeliveryOk(s.conns[c], Serving(s, c))
    ensures Serving(s, c) ==> c == |s.conns| - 1 && PairOk(s.server, s.conns[c], s.history)
  {
  }

  lemma StartReadKeeps(s: Sys, c: nat)
    requires Inv(s) && Enabled(s, StartRead(c))
    ensures Inv(Apply(s, StartRead(c)))
  {
    var k := s.conns[c];
    ConnFacts(s, c);
    if Serving(s, c) { EnterKeepsJoint(s.server, k, s.history); }
    ClientMove(s, c, k.(reader := k.reader.(pc := Enter(k.reader.client))));
  }

  lemma InputKeeps(s: Sys, c: nat, p: Packet)
    requires Inv(s) && Enabled(s, SendInput(c, p))
    ensures Inv(Apply(s, SendInput(c, p)))
  {
    var k := s.conns[c];
    ConnFacts(s, c);
    InputKeepsJoint(s.server, k, s.history, p);
    FiltersAppend(k.up, p);
    ClientMove(s, c, SentOn(k, p));
  }

  lemma RawKeeps(s: Sys, c: nat, p: Packet)
    requires Inv(s) && Enabled(s, SendRaw(c, p))
    ensures Inv(Apply(s, SendRaw(c, p)))
  {
    var k := s.conns[c];
    ConnFacts(s, c);
    FiltersAppend(k.up, p);
    assert k.handled + (InputsOnly(k.up) + [p]) == (k.handled + InputsOnly(k.up)) + [p];
    ClientMove(s, c, SentOn(k, p));
  }

  lemma CloseKeeps(s: Sys, c: nat)
    requires Inv(s) && Enabled(s, CloseClient(c))
    ensures Inv(Apply(s, CloseClient(c)))
  {
    ConnFacts(s, c);
    ClientMove(s, c, s.conns[c].(open := false));
  }

  /** The next byte in the leased slot is the next byte of the published frame. */
  lemma ServedByte(s: Sys, c: nat, b: Byte)
    requires Inv(s) && Enabled(s, GetAnswer(c, Reading(b))) && Serving(s, c)
    ensures NextByte(s.conns[c].reader.pc, b, s.history)
  {
    ConnFacts(s, c);
    assert !BeingWritten(s, s.server.leased);
  }

  lemma ServedAnswerKeepsJoint(s: Sys, c: nat, a: Answer)
    requires Inv(s) && Enabled(s, GetAnswer(c, a)) && Serving(s, c)
    ensures Joint(s.server, AnswerConn(s.conns[c], a), s.history)
  {
    var k := s.conns[c];
    ConnFacts(s, c);
    match a
    case Sending(send) => SendKeepsJoint(s.server, k, s.history, send);
    case Waiting(wait) => WaitKeepsJoint(s.server, k, s.history, wait);
    case Receiving(r) => ReceiveKeepsJoint(s.server, k, s.history, r);
    case Reading(b) =>
      ServedByte(s, c, b);
      ByteKeepsJoint(s.server, k, s.history, b);
  }

  lemma AnswerKeeps(s: Sys, c: nat, a: Answer)
    requires Inv(s) && Enabled(s, GetAnswer(c, a))
    ensures Inv(Apply(s, GetAnswer(c, a)))
  {
    var k := s.conns[c];
    ConnFacts(s, c);
    if Serving(s, c) {
      ServedAnswerKeepsJoint(s, c, a);
      JointFrameIntact(s.server, k, s.history);
    }
    AnswerKeepsClientOk(k, a, s.history);
    AnswerKeepsDelivery(k, a, Serving(s, c));
    ClientMove(s, c, AnswerConn(k, a));
  }

  // ----- server steps ---------------------------------------------------------------

  /** The events a packet raises: an input its own, anything invalid the terminal one. */
  function Raised(v: Server, p: Packet): seq<Event> {
    if IsInput(p) then [EventOf(p)]
    else if v.client.Some? && Handle(v, p).client.None? then [Event(ProtocolError, 0)]
    else []
  }

  /** What handling any packet of any peer does beside the lease. */
  lemma HandleRaises(v: Server, p: Packet)
    requires Ok(v) && v.client.Some?
    ensures var t := Handle(v, p);
            && Ok(t) && t.deferred == v.deferred + Raised(v, p)
            && t.slotSequence == v.slotSequence && t.sequence == v.sequence && t.latest == v.latest
            && (t.client == v.client || t.client.None?) && (IsInput(p) ==> t.client == v.client)
  {
    HandleKeepsOk(v, p);
  }

  function Taken(v: Server, k: Conn): Conn
    requires k.up != []
  {
    var p := k.up[0];
    k.(up := k.up[1..], handled := if IsInput(p) then k.handled + [p] else k.handled, events := k.events + Raised(v, p))
  }

  lemma EndKeepsDelivery(k: Conn, kind: Kind)
    requires DeliveryOk(k, true) && IsTerminal(kind) && (kind == ProtocolError ==> k.raw)
    ensures DeliveryOk(k.(events := k.events + [Event(kind, 0)]), false)
  {
    assert (k.events + [Event(kind, 0)])[..|k.handled|] == EventsOf(k.handled);
  }

  lemma InputTakenDelivery(k: Conn)
    requires DeliveryOk(k, true) && k.up != [] && IsInput(k.up[0])
    ensures var p := k.up[0];
            DeliveryOk(k.(up := k.up[1..], handled := k.handled + [p], events := k.events + [EventOf(p)]), true)
  {
    LeaseHead(k.up);
    var p := k.up[0];
    assert EventsOf(k.handled + [p]) == EventsOf(k.handled) + [EventOf(p)];
    assert k.handled + InputsOnly(k.up) == (k.handled + [p]) + InputsOnly(k.up[1..]);
  }

  lemma OtherTakenDelivery(k: Conn)
    requires DeliveryOk(k, true) && k.up != [] && !IsInput(k.up[0])
    ensures DeliveryOk(k.(up := k.up[1..]), true)
  {
    LeaseHead(k.up);
    assert [] + InputsOnly(k.up[1..]) == InputsOnly(k.up[1..]);
  }

  lemma TakenDelivery(v: Server, k: Conn)
    requires Ok(v) && v.client.Some? && DeliveryOk(k, true) && k.up != []
    requires Handle(v, k.up[0]).client.None? ==> k.raw
    ensures DeliveryOk(Taken(v, k), Handle(v, k.up[0]).client.Some?)
  {
    HandleRaises(v, k.up[0]);
    if IsInput(k.up[0]) {
      InputTakenDelivery(k);
    } else {
      OtherTakenDelivery(k);
      if Handle(v, k.up[0]).client.None? {
        EndKeepsDelivery(k.(up := k.up[1..]), ProtocolError);
      } else {
        assert k.events + [] == k.events;
      }
    }
  }

  lemma TakeStepIs(s: Sys)
    requires Ok(s.server) && Served(s) && s.server.client.value == |s.conns| - 1 && s.conns[|s.conns| - 1].up != []
    ensures var c := |s.conns| - 1;
            TakeStep(s) == s.(server := Handle(s.server, s.conns[c].up[0]), conns := s.conns[c := Taken(s.server, s.conns[c])])
  {
    var c := |s.conns| - 1;
    var k, p := s.conns[c], s.conns[c].up[0];
    HandleRaises(s.server, p);
    assert Handle(s.server, p).deferred[|s.server.deferred|..] == Raised(s.server, p);
    var half := k.(up := k.up[1..], handled := if IsInput(p) then k.handled + [p] else k.handled);
    assert s.conns[c := half][c := Taken(s.server, k)] == s.conns[c := Taken(s.server, k)];
  }

  /** A library client's packets never end the connection, and keep the joint invariant;
      a raw peer's may, and have nothing to keep. */
  lemma TakenPair(v: Server, k: Conn, history: seq<seq<Byte>>)
    requires Ok(v) && v.client.Some? && PairOk(v, k, history) && PeerOk(k, history) && k.up != [] && |history| == v.sequence
    requires !k.raw ==> IsLease(k.up[0]) || IsInput(k.up[0])
    ensures PeerOk(Taken(v, k), history) && PairOk(Handle(v, k.up[0]), Taken(v, k), history)
    ensures Handle(v, k.up[0]).client.None? ==> k.raw
  {
    if !k.raw { TakeKeepsJoint(v, k, history); }
  }

  lemma TakeKeeps(s: Sys)
    requires Inv(s) && Enabled(s, TakePacket)
    ensures Inv(Apply(s, TakePacket))
  {
    var c := |s.conns| - 1;
    var k := s.conns[c];
    ConnFacts(s, c);
    HandleRaises(s.server, k.up[0]);
    TakenPair(s.server, k, s.history);
    TakenDelivery(s.server, k);
    ServerMove(s, Handle(s.server, k.up[0]), Taken(s.server, k), Raised(s.server, k.up[0]));
    TakeStepIs(s);
  }

  lemma DropStepIs(s: Sys, kind: Kind)
    requires Served(s) && s.server.client.value == |s.conns| - 1
    ensures var c := |s.conns| - 1;
            Install(s, Drop(s.server, kind)) ==
            s.(server := Drop(s.server, kind), conns := s.conns[c := s.conns[c].(events := s.conns[c].events + [Event(kind, 0)])])
  {
    assert Drop(s.server, kind).deferred[|s.server.deferred|..] == [Event(kind, 0)];
  }

  lemma DropKeeps(s: Sys, kind: Kind)
    requires Inv(s) && ServerFree(s) && Served(s) && IsTerminal(kind)
    requires kind == ProtocolError ==> s.conns[s.server.client.value].raw
    ensures Inv(Install(s, Drop(s.server, kind)))
  {
    var c := |s.conns| - 1;
    var k := s.conns[c];
    ConnFacts(s, c);
    DropKeepsOk(s.server, kind);
    EndKeepsDelivery(k, kind);
    DropStepIs(s, kind);
    ServerMove(s, Drop(s.server, kind), k.(events := k.events + [Event(kind, 0)]), [Event(kind, 0)]);
  }

  /** The connection after a reply step that raised these events. */
  function Mailed(v: Server, k: Conn, send: Send, more: seq<Event>): Conn
    requires InRange(v)
  {
    var l := k.(events := k.events + more);
    if SendsReply(v, send) then l.(down := k.down + [Arm(v).reply]) else l
  }

  function RaisedByReply(v: Server, send: Send): seq<Event>
    requires InRange(v)
  {
    if v.client.Some? && Respond(v, send).client.None? then [Event(Disconnected, 0)] else []
  }

  lemma ReplyStepIs(s: Sys, send: Send)
    requires Ok(s.server) && Served(s) && s.server.client.value == |s.conns| - 1
    ensures var c := |s.conns| - 1;
            ReplyStep(s, send) == s.(server := Respond(s.server, send),
              conns := s.conns[c := Mailed(s.server, s.conns[c], send, RaisedByReply(s.server, send))])
  {
    var c := |s.conns| - 1;
    var k, t, more := s.conns[c], Respond(s.server, send), RaisedByReply(s.server, send);
    assert t.deferred == s.server.deferred + more;
    assert t.deferred[|s.server.deferred|..] == more;
    var l := k.(events := k.events + more);
    assert s.conns[c := l][c := Mailed(s.server, k, send, more)] == s.conns[c := Mailed(s.server, k, send, more)];
  }

  lemma RespondRaises(v: Server, send: Send)
    requires Ok(v) && v.client.Some?
    ensures var t := Respond(v, send);
            && Ok(t) && t.slotSequence == v.slotSequence && t.sequence == v.sequence && t.latest == v.latest
            && t.deferred == v.deferred + RaisedByReply(v, send) && (t.client == v.client || t.client.None?)
  {
    RespondKeepsOk(v, send);
  }

  lemma MailPair(v: Server, k: Conn, history: seq<seq<Byte>>, send: Send)
    requires Ok(v) && v.client.Some? && PairOk(v, k, history) && PeerOk(k, history) && |history| == v.sequence
    ensures var m := Mailed(v, k, send, RaisedByReply(v, send));
            PeerOk(m, history) && (Respond(v, send).client.Some? ==> PairOk(Respond(v, send), m, history))
  {
    if !k.raw { ReplyKeepsJoint(v, k, history, send); }
    assert k.events + [] == k.events;
  }

  lemma MailKeeps(s: Sys, send: Send)
    requires Inv(s) && Served(s)
    ensures var c := |s.conns| - 1;
            var m, t := Mailed(s.server, s.conns[c], send, RaisedByReply(s.server, send)), Respond(s.server, send);
            && PeerOk(m, s.history) && DeliveryOk(m, t.client.Some?)
            && (t.client.Some? ==> PairOk(t, m, s.history))
  {
    var k := s.conns[|s.conns| - 1];
    ConnFacts(s, |s.conns| - 1);
    MailPair(s.server, k, s.history, send);
    RespondRaises(s.server, send);
    if Respond(s.server, send).client.None? {
      EndKeepsDelivery(k, Disconnected);
    } else {
      assert k.events + [] == k.events;
    }
  }

  lemma ReplyKeeps(s: Sys, send: Send)
    requires Inv(s) && ServerFree(s)
    ensures Inv(ReplyStep(s, send))
  {
    if s.server.client.None? {
      assert ReplyStep(s, send) == s;
    } else {
      var c := |s.conns| - 1;
      var more := RaisedByReply(s.server, send);
      MailKeeps(s, send);
      RespondRaises(s.server, send);
      ReplyStepIs(s, send);
      ServerMove(s, Respond(s.server, send), Mailed(s.server, s.conns[c], send, more), more);
    }
  }

  // ----- publishing, connecting, handing events over ---------------------------------

  lemma NoEventsYet(conns: seq<Conn>, raw: bool)
    ensures AllEvents(conns + [NewConn(raw)]) == AllEvents(conns)
  {
    assert (conns + [NewConn(raw)])[..|conns|] == conns;
    assert AllEvents(conns + [NewConn(raw)]) == AllEvents(conns) + [];
  }

  lemma NewConnIsOk(conns: seq<Conn>, raw: bool, history: seq<seq<Byte>>)
    requires PeersOk(conns, history) && DeliveriesOk(conns, None)
    ensures PeersOk(conns + [NewConn(raw)], history) && DeliveriesOk(conns + [NewConn(raw)], Some(|conns|))
  {
    forall c: nat | c < |conns|
      ensures DeliveryOk(conns[c], false)
    {
      assert DeliveryOk(conns[c], None == Some(c));
    }
  }

  lemma ConnectKeeps(s: Sys, raw: bool)
    requires Inv(s) && Enabled(s, Connect(raw))
    ensures Inv(Apply(s, Connect(raw)))
  {
    NoEventsYet(s.conns, raw);
    NewConnIsOk(s.conns, raw, s.history);
    assert MemoryOk(Apply(s, Connect(raw)));
  }

  lemma BeginPublishKeeps(s: Sys, image: seq<Byte>)
    requires Inv(s) && Enabled(s, BeginPublish(image))
    ensures Inv(Apply(s, BeginPublish(image)))
  {
    var t := Apply(s, BeginPublish(image));
    assert MemoryOk(t);
    SameClients(s, t);
  }

  /** Steps that touch neither connections nor the server's variables. */
  lemma SameClients(s: Sys, t: Sys)
    requires Inv(s) && MemoryOk(t)
    requires t.server == s.server && t.conns == s.conns && t.history == s.history && t.delivered == s.delivered
    ensures Inv(t)
  {
  }

  lemma WriteKeepsMemory(s: Sys)
    requires MemoryOk(s) && Enabled(s, WriteByte)
    ensures MemoryOk(Apply(s, WriteByte))
  {
    var w := s.writing.value;
    var t := Apply(s, WriteByte);
    var row := s.memory[w.slot][w.done := w.image[w.done]];
    assert row[..w.done + 1] == s.memory[w.slot][..w.done] + [w.image[w.done]] == w.image[..w.done + 1];
    assert forall k :: 0 <= k < SLOTS && !BeingWritten(t, k) ==> t.memory[k] == s.memory[k];
  }

  lemma WriteKeeps(s: Sys)
    requires Inv(s) && Enabled(s, WriteByte)
    ensures Inv(Apply(s, WriteByte))
  {
    WriteKeepsMemory(s);
    SameClients(s, Apply(s, WriteByte));
  }

  lemma InstalledKeepsMemory(s: Sys)
    requires MemoryOk(s) && s.writing.Some? && s.writing.value.done == FRAME_BYTES
    ensures MemoryOk(Installed(s))
  {
    var w, t := s.writing.value, Installed(s);
    PublishedKeepsOk(s.server);
    assert s.memory[w.slot][..w.done] == s.memory[w.slot] && w.image[..w.done] == w.image;
    forall k | 0 <= k < SLOTS && t.server.slotSequence[k] > 0
      ensures t.memory[k] == t.history[t.server.slotSequence[k] - 1]
    {
      if k != w.slot { assert !BeingWritten(s, k); }
    }
  }

  /** What a client relies on about published frames outlives later publications. */
  lemma ClientOkGrows(k: Conn, history: seq<seq<Byte>>, image: seq<Byte>)
    requires ClientOk(k, history)
    ensures ClientOk(k, history + [image])
  {
  }

  lemma PeersOkGrow(conns: seq<Conn>, history: seq<seq<Byte>>, image: seq<Byte>)
    requires PeersOk(conns, history)
    ensures PeersOk(conns, history + [image])
  {
    forall c | 0 <= c < |conns|
      ensures PeerOk(conns[c], history + [image])
    {
      if !conns[c].raw { ClientOkGrows(conns[c], history, image); }
    }
  }

  lemma InstalledKeeps(s: Sys)
    requires Inv(s) && s.writing.Some? && s.writing.value.done == FRAME_BYTES
    ensures Inv(Installed(s))
  {
    var k := if Served(s) then s.conns[|s.conns| - 1] else NewConn(true);
    InstalledKeepsMemory(s);
    if !k.raw { PublishKeepsJoint(s.server, k, s.history, s.writing.value.image); }
    PeersOkGrow(s.conns, s.history, s.writing.value.image);
  }

  lemma EndPublishKeeps(s: Sys, send: Send)
    requires Inv(s) && Enabled(s, EndPublish(send))
    ensures Inv(Apply(s, EndPublish(send)))
  {
    InstalledKeeps(s);
    ReplyKeeps(Installed(s), send);
  }

  lemma JointIgnoresQueue(v: Server, k: Conn, history: seq<seq<Byte>>)
    requires Joint(v, k, history)
    ensures Joint(v.(deferred := []), k, history)
  {
  }

  lemma QueueEmptied(s: Sys)
    requires MemoryOk(s) && ServerFree(s) && ServedOk(s.server, s.conns, s.history)
    ensures var t := Apply(s, Deliver); MemoryOk(t) && ServedOk(t.server, t.conns, t.history)
  {
    var k := if s.server.client.Some? then s.conns[|s.conns| - 1] else NewConn(true);
    if !k.raw { JointIgnoresQueue(s.server, k, s.history); }
  }

  lemma DeliverKeeps(s: Sys)
    requires Inv(s) && Enabled(s, Deliver)
    ensures Inv(Apply(s, Deliver))
  {
    QueueEmptied(s);
    assert (s.delivered + s.server.deferred) + [] == s.delivered + s.server.deferred;
  }

  // ----- every step, every run ---------------------------------------------------------

  lemma StepKeepsInv(s: Sys, step: Step)
    requires Inv(s) && Enabled(s, step)
    ensures Inv(Apply(s, step))
  {
    match step
    case Connect(raw) => ConnectKeeps(s, raw);
    case BeginPublish(image) => BeginPublishKeeps(s, image);
    case WriteByte => WriteKeeps(s);
    case EndPublish(send) => EndPublishKeeps(s, send);
    case TakePacket => TakeKeeps(s);
    case TakeShort => DropKeeps(s, ProtocolError);
    case LoseClient => DropKeeps(s, Disconnected);
    case OverflowClient => DropKeeps(s, Overflow);
    case Reply(send) => ReplyKeeps(s, send);
    case Deliver => DeliverKeeps(s);
    case StartRead(c) => StartReadKeeps(s, c);
    case GetAnswer(c, a) => AnswerKeeps(s, c, a);
    case SendInput(c, p) => InputKeeps(s, c, p);
    case SendRaw(c, p) => RawKeeps(s, c, p);
    case CloseClient(c) => CloseKeeps(s, c);
  }

  /** The steps can be taken one after the other from here. */
  predicate Runs(s: Sys, steps: seq<Step>)
    decreases |steps|
  {
    steps == [] || (Shaped(s) && Enabled(s, steps[0]) && Runs(Apply(s, steps[0]), steps[1..]))
  }

  function After(s: Sys, steps: seq<Step>): Sys
    requires Runs(s, steps)
    decreases |steps|
  {
    if steps == [] then s else After(Apply(s, steps[0]), steps[1..])
  }

  lemma {:induction false} RunsKeepInv(s: Sys, steps: seq<Step>)
    requires Inv(s) && Runs(s, steps)
    ensures Inv(After(s, steps))
    decreases |steps|
  {
    if steps != [] {
      StepKeepsInv(s, steps[0]);
      RunsKeepInv(Apply(s, steps[0]), steps[1..]);
    }
  }

  /** Array sizes never stand in the way: whatever is enabled can be taken. */
  lemma EnabledStepsRun(s: Sys, step: Step)
    requires Inv(s) && Enabled(s, step)
    ensures Runs(s, [step])
  {
    assert [step][1..] == [];
  }
}
