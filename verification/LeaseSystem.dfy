/** Both halves of the frame lease together: one server, any number of successive
    connections, two first-in first-out channels each, and three shared slots written
    and copied one byte at a time, in any interleaving.  Behind a connection is either
    the client library or a raw peer, which sends whatever it likes. */
module LeaseSystem {
  import opened Options
  import opened Wire
  import opened ServerRules
  import opened ClientRules

  datatype Writing = Writing(slot: int, image: seq<Byte>, done: nat)

  datatype Read = Read(code: Result, sequence: nat, image: seq<Byte>)

  /** One connection: the client behind it, packets in flight, and its history:
      finished reads, well-formed inputs sent and handled, events raised for it. */
  datatype Conn = Conn(raw: bool, reader: Reader, up: seq<Packet>, down: seq<Packet>, open: bool, results: seq<Read>,
                       sent: seq<Packet>, handled: seq<Packet>, events: seq<Event>)

  /** history[k-1] is the image published under sequence number k. */
  datatype Sys = Sys(server: Server, memory: seq<seq<Byte>>, writing: Option<Writing>, history: seq<seq<Byte>>,
                     conns: seq<Conn>, delivered: seq<Event>)

  datatype Step =
    | Connect(peer: bool)
    | BeginPublish(image: seq<Byte>)
    | WriteByte
    | EndPublish(send: Send)
    | TakePacket
    | TakeShort
    | LoseClient
    | OverflowClient
    | Reply(reply: Send)
    | Deliver
    | StartRead(reader: nat)
    | GetAnswer(client: nat, answer: Answer)
    | SendInput(player: nat, input: Packet)
    | SendRaw(rogue: nat, anything: Packet)
    | CloseClient(closing: nat)

  function Blank(): seq<Byte> {
    seq(FRAME_BYTES, _ => 0)
  }

  function Init(): Sys {
    Sys(Fresh(), [Blank(), Blank(), Blank()], None, [], [], [])
  }

  predicate Serving(s: Sys, c: nat) {
    s.server.client == Some(c)
  }

  /** The mutex: a publication in progress excludes all other server work. */
  predicate ServerFree(s: Sys) {
    s.writing.None?
  }

  predicate Served(s: Sys) {
    s.server.client.Some? && s.server.client.value < |s.conns|
  }

  /** What the environment can answer.  A send on a connection the server has
      closed reports so, and no byte can be read but the one in the slot. */
  predicate Possible(s: Sys, c: nat, a: Answer)
    requires c < |s.conns|
  {
    match a
    case Sending(send) => (send == Sent || send == Blocked) ==> Serving(s, c)
    case Waiting(_) => true
    case Receiving(r) =>
      (r.Arrived? ==> s.conns[c].down != [] && r.packet == s.conns[c].down[0] && r.whole) && (r.EndOfFile? ==> !Serving(s, c))
    case Reading(b) =>
      var pc := s.conns[c].reader.pc;
      pc.Copying? && pc.slot < |s.memory| && |pc.copied| < |s.memory[pc.slot]| && b == s.memory[pc.slot][|pc.copied|]
  }

  /** The library behind this connection, still open. */
  predicate Library(s: Sys, c: nat) {
    c < |s.conns| && s.conns[c].open && !s.conns[c].raw
  }

  /** Only a raw peer sends packets of a wrong size; where one stands in the channel is
      the environment's choice. */
  predicate Enabled(s: Sys, step: Step) {
    match step
    case Connect(_) => ServerFree(s) && s.server.client.None?
    case BeginPublish(image) => ServerFree(s) && |image| == FRAME_BYTES
    case WriteByte => s.writing.Some? && s.writing.value.done < |s.writing.value.image|
    case EndPublish(_) => s.writing.Some? && s.writing.value.done == |s.writing.value.image|
    case TakePacket => ServerFree(s) && Served(s) && s.conns[s.server.client.value].up != []
    case TakeShort => ServerFree(s) && Served(s) && s.conns[s.server.client.value].raw
    case LoseClient => ServerFree(s) && Served(s)
    case OverflowClient => ServerFree(s) && Served(s) && (s.conns[s.server.client.value].up != [] || s.conns[s.server.client.value].raw)
    case Reply(_) => ServerFree(s)
    case Deliver => ServerFree(s)
    case StartRead(c) => Library(s, c) && s.conns[c].reader.pc.Idle?
    case GetAnswer(c, a) => Library(s, c) && Fits(s.conns[c].reader.pc, a) && Possible(s, c, a)
    case SendInput(c, p) => Library(s, c) && Serving(s, c) && IsInput(p)
    case SendRaw(c, _) => c < |s.conns| && s.conns[c].open && s.conns[c].raw && Serving(s, c)
    case CloseClient(c) => c < |s.conns|
  }

  // ----- what each step does ----------------------------------------------------

  function NewConn(raw: bool): Conn {
    Conn(raw, Reader(CONNECTED, Idle), [], [], true, [], [], [], [])
  }

  /** Installs the server's new variables and credits new events to the connection. */
  function Install(s: Sys, t: Server): Sys {
    if Served(s) && |s.server.deferred| <= |t.deferred| then
      var c := s.server.client.value;
      s.(server := t, conns := s.conns[c := s.conns[c].(events := s.conns[c].events + t.deferred[|s.server.deferred|..])])
    else s.(server := t)
  }

  function TakeStep(s: Sys): Sys
    requires Served(s) && s.conns[s.server.client.value].up != []
  {
    var c := s.server.client.value;
    var k := s.conns[c];
    var p := k.up[0];
    Install(s.(conns := s.conns[c := k.(up := k.up[1..], handled := if IsInput(p) then k.handled + [p] else k.handled)]),
            Handle(s.server, p))
  }

  predicate SendsReply(v: Server, send: Send)
    requires InRange(v)
  {
    send == Sent && Arm(v).client.Some? && Arm(v).replyPending
  }

  function ReplyStep(s: Sys, send: Send): Sys
    requires InRange(s.server)
  {
    var t := Install(s, Respond(s.server, send));
    if SendsReply(s.server, send) && Served(t) then
      var c := t.server.client.value;
      t.(conns := t.conns[c := t.conns[c].(down := t.conns[c].down + [Arm(s.server).reply])])
    else t
  }

  /** The reader after an answer; a finished call is recorded and leaves it idle. */
  function Settle(k: Conn, r: Reader): Conn {
    if r.pc.Done? then
      k.(reader := Reader(r.client, Idle), results := k.results + [Read(r.pc.code, r.pc.returned, r.pc.pixels)])
    else k.(reader := r)
  }

  function AnswerConn(k: Conn, a: Answer): Conn
    requires Fits(k.reader.pc, a) && (a.Receiving? && a.receive.Arrived? ==> k.down != [])
  {
    var sent := if a.Sending? && a.send == Sent then k.(up := k.up + [Offer(k.reader)]) else k;
    var taken := if a.Receiving? && a.receive.Arrived? then sent.(down := sent.down[1..]) else sent;
    Settle(taken, Advance(k.reader, a))
  }

  function SentOn(k: Conn, p: Packet): Conn {
    k.(up := k.up + [p], sent := if IsInput(p) then k.sent + [p] else k.sent)
  }

  /** Array sizes and index ranges: three slots of one frame each. */
  predicate Shaped(s: Sys) {
    && InRange(s.server) && |s.memory| == SLOTS && (forall k :: 0 <= k < SLOTS ==> |s.memory[k]| == FRAME_BYTES)
    && (s.writing.Some? ==> 0 <= s.writing.value.slot < SLOTS && s.writing.value.done <= |s.writing.value.image| == FRAME_BYTES)
  }

  function WriteStep(s: Sys): Sys
    requires Shaped(s) && Enabled(s, WriteByte)
  {
    var w := s.writing.value;
    s.(memory := s.memory[w.slot := s.memory[w.slot][w.done := w.image[w.done]]], writing := Some(w.(done := w.done + 1)))
  }

  /** The publication is installed: the slot just written now holds the newest frame. */
  function Installed(s: Sys): Sys
    requires InRange(s.server) && s.writing.Some?
  {
    s.(server := Published(s.server), history := s.history + [s.writing.value.image], writing := None)
  }

  function Apply(s: Sys, step: Step): Sys
    requires Shaped(s) && Enabled(s, step)
  {
    match step
    case Connect(raw) => s.(server := s.server.(client := Some(|s.conns|)), conns := s.conns + [NewConn(raw)])
    case BeginPublish(image) => s.(writing := Some(Writing(PublishSlot(s.server.latest, s.server.leased), image, 0)))
    case WriteByte => WriteStep(s)
    case EndPublish(send) => ReplyStep(Installed(s), send)
    case TakePacket => TakeStep(s)
    case TakeShort => Install(s, Drop(s.server, ProtocolError))
    case LoseClient => Install(s, Drop(s.server, Disconnected))
    case OverflowClient => Install(s, Drop(s.server, Overflow))
    case Reply(send) => ReplyStep(s, send)
    case Deliver => s.(delivered := s.delivered + s.server.deferred, server := s.server.(deferred := []))
    case StartRead(c) =>
      var r := s.conns[c].reader;
      s.(conns := s.conns[c := s.conns[c].(reader := r.(pc := Enter(r.client)))])
    case GetAnswer(c, a) => s.(conns := s.conns[c := AnswerConn(s.conns[c], a)])
    case SendInput(c, p) => s.(conns := s.conns[c := SentOn(s.conns[c], p)])
    case SendRaw(c, p) => s.(conns := s.conns[c := SentOn(s.conns[c], p)])
    case CloseClient(c) => s.(conns := s.conns[c := s.conns[c].(open := false)])
  }

  // ----- the invariant ----------------------------------------------------------

  /** Server variables, slots and the publication in progress. */
  predicate MemoryOk(s: Sys) {
    && Ok(s.server) && |s.memory| == SLOTS && |s.history| == s.server.sequence
    && (forall k :: 0 <= k < SLOTS ==> |s.memory[k]| == FRAME_BYTES && s.server.slotSequence[k] <= s.server.sequence)
    && (forall n :: 0 <= n < |s.history| ==> |s.history[n]| == FRAME_BYTES)
    && (forall k :: 0 <= k < SLOTS && s.server.slotSequence[k] > 0 && !BeingWritten(s, k) ==>
          s.memory[k] == s.history[s.server.slotSequence[k] - 1])
    && (s.writing.Some? ==> WritingOk(s, s.writing.value))
  }

  predicate BeingWritten(s: Sys, k: int) {
    s.writing.Some? && s.writing.value.slot == k
  }

  predicate WritingOk(s: Sys, w: Writing)
    requires |s.memory| == SLOTS && Ok(s.server) && forall k :: 0 <= k < SLOTS ==> |s.memory[k]| == FRAME_BYTES
  {
    && w.slot == PublishSlot(s.server.latest, s.server.leased)
    && |w.image| == FRAME_BYTES && w.done <= FRAME_BYTES && s.memory[w.slot][..w.done] == w.image[..w.done]
  }

  /** What any library client can rely on, even after the server has dropped it. */
  predicate ClientOk(k: Conn, history: seq<seq<Byte>>) {
    && k.reader.client.lastSequence <= |history|
    && !k.reader.pc.Done?
    && (k.down != [] ==> |k.down| == 1 && Acceptable(k.reader.client, k.down[0]) && k.down[0].extra <= |history| && !k.reader.pc.Copying?)
    && (k.reader.pc.Copying? ==>
          && k.reader.pc.slot < SLOTS && |k.reader.pc.copied| < FRAME_BYTES
          && k.reader.client.lastSequence < k.reader.pc.sequence <= |history|)
    && (k.reader.pc.FinalRelease? ==>
          0 < k.reader.pc.number == k.reader.client.lastSequence && k.down == [] && ReadsBelow(k.results, k.reader.pc.number))
    && ReadsOk(k.results, history) && ReadsBelow(k.results, k.reader.client.lastSequence + 1)
  }

  /** The results of finished reads: frames intact and ever newer, never Protocol. */
  predicate ReadsOk(results: seq<Read>, history: seq<seq<Byte>>) {
    && (forall i :: 0 <= i < |results| ==> results[i].code != Protocol)
    && (forall i :: 0 <= i < |results| && results[i].code == Success ==>
          0 < results[i].sequence <= |history| && results[i].image == history[results[i].sequence - 1])
    && (forall i, j :: 0 <= i < j < |results| && results[i].code == Success && results[j].code == Success ==>
          results[i].sequence < results[j].sequence)
  }

  predicate ReadsBelow(results: seq<Read>, n: nat) {
    forall i :: 0 <= i < |results| && results[i].code == Success ==> results[i].sequence < n
  }

  function ReleaseOf(v: Server): Packet
    requires 0 <= v.leased
  {
    Packet(MAGIC, RELEASE, v.leasedSequence, v.leased)
  }

  predicate BetweenReads(pc: Pc) {
    pc.Idle? || pc.WaitReply? || pc.ReceiveReply?
  }

  /** A request is outstanding: it is in flight, waiting, answered or being copied. */
  predicate Asking(v: Server, k: Conn, history: seq<seq<Byte>>) {
    var c, pc, lease, request := k.reader.client, k.reader.pc, LeaseOnly(k.up), RequestPacket(k.reader.client);
    && !c.releasePending
    && ((BetweenReads(pc) && v.leased < 0 && lease == [request] && k.down == [] && !v.requestPending)
        || (BetweenReads(pc) && v.leased >= 0 && lease == [ReleaseOf(v), request] && k.down == [] && !v.replyPending)
        || (BetweenReads(pc) && lease == [] && k.down == [] && v.requestPending && v.requestAfter == c.lastSequence)
        || (BetweenReads(pc) && lease == [] && k.down == [] && v.replyPending && v.leasedSequence > c.lastSequence)
        || (BetweenReads(pc) && lease == [] && v.leased >= 0 && !v.replyPending && k.down == [FrameReply(v)] && v.leasedSequence > c.lastSequence)
        || (lease == [] && v.leased >= 0 && !v.replyPending && k.down == [] && pc.Copying? && pc.slot == v.leased
            && pc.sequence == v.leasedSequence && CopiedPart(pc, history)))
  }

  predicate CopiedPart(pc: Pc, history: seq<seq<Byte>>)
    requires pc.Copying?
  {
    0 < pc.sequence <= |history| && |pc.copied| <= |history[pc.sequence - 1]| &&
    pc.copied == history[pc.sequence - 1][..|pc.copied|]
  }

  /** No request is outstanding; a lease, if any, is on its way back. */
  predicate Resting(v: Server, k: Conn, history: seq<seq<Byte>>) {
    var c, pc, lease := k.reader.client, k.reader.pc, LeaseOnly(k.up);
    && !v.requestPending && !v.replyPending && k.down == []
    && if c.releasePending then
         && lease == [] && v.leased >= 0 && c.releasePacket == ReleaseOf(v)
         && (pc.Idle? || pc.SendRelease? || pc.WaitRelease? ||
             (pc.FinalRelease? && 0 < pc.number <= |history| && pc.image == history[pc.number - 1]))
       else
         && (if v.leased < 0 then lease == [] else lease == [ReleaseOf(v)])
         && (pc.Idle? || pc.SendRequest? || pc.WaitRequest?)
  }

  /** The joint invariant of the server and the library client it serves. */
  predicate Joint(v: Server, k: Conn, history: seq<seq<Byte>>) {
    if k.reader.client.requestPending then Asking(v, k, history) else Resting(v, k, history)
  }

  function EventsOf(ps: seq<Packet>): seq<Event> {
    seq(|ps|, i requires 0 <= i < |ps| => EventOf(ps[i]))
  }

  /** Inputs handled are an in-order prefix of well-formed inputs sent; the rest is in
      flight, or lost with the connection, whose one terminal event then ends its events.
      The library sends only lease packets and inputs, and never ends in an error. */
  predicate DeliveryOk(k: Conn, serving: bool) {
    && (!k.raw ==> forall i :: 0 <= i < |k.up| ==> IsLease(k.up[i]) || IsInput(k.up[i]))
    && (if serving then k.sent == k.handled + InputsOnly(k.up) && k.events == EventsOf(k.handled)
        else k.handled <= k.sent && Ended(k.events, k.handled, k.raw))
  }

  predicate Ended(events: seq<Event>, handled: seq<Packet>, raw: bool) {
    && |events| == |handled| + 1
    && events[..|handled|] == EventsOf(handled)
    && IsTerminal(events[|handled|].kind) && (events[|handled|].kind == ProtocolError ==> raw)
  }

  function AllEvents(conns: seq<Conn>): seq<Event> {
    if conns == [] then [] else AllEvents(conns[..|conns| - 1]) + conns[|conns| - 1].events
  }

  /** A raw peer makes no library calls; a library client keeps its own invariant. */
  predicate PeerOk(k: Conn, history: seq<seq<Byte>>) {
    if k.raw then k.results == [] else ClientOk(k, history)
  }

  predicate PairOk(v: Server, k: Conn, history: seq<seq<Byte>>) {
    !k.raw ==> Joint(v, k, history)
  }

  predicate PeersOk(conns: seq<Conn>, history: seq<seq<Byte>>) {
    forall c :: 0 <= c < |conns| ==> PeerOk(conns[c], history)
  }

  predicate DeliveriesOk(conns: seq<Conn>, client: Option<nat>) {
    forall c: nat :: c < |conns| ==> DeliveryOk(conns[c], client == Some(c))
  }

  predicate ServedOk(v: Server, conns: seq<Conn>, history: seq<seq<Byte>>) {
    v.client.Some? ==> v.client.value == |conns| - 1 && PairOk(v, conns[|conns| - 1], history)
  }

  predicate Inv(s: Sys) {
    && MemoryOk(s) && PeersOk(s.conns, s.history) && DeliveriesOk(s.conns, s.server.client)
    && ServedOk(s.server, s.conns, s.history)
    && s.delivered + s.server.deferred == AllEvents(s.conns)
  }

  lemma InitHolds()
    ensures Inv(Init())
  {
  }
}
