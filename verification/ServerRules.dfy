/** The server half of the frame lease as pure steps: what each packet, reply and
    publication does to the server's variables. */
module ServerRules {
  import opened Options
  import opened Wire

  datatype Server = Server(client: Option<nat>, latest: int, leased: int, slotSequence: seq<nat>, sequence: nat,
                           leasedSequence: nat, requestAfter: nat, requestPending: bool, replyPending: bool,
                           reply: Packet, deferred: seq<Event>)

  const NO_PACKET: Packet := Packet(0, 0, 0, 0)

  function Fresh(): Server {
    Server(None, -1, -1, [0, 0, 0], 0, 0, 0, false, false, NO_PACKET, [])
  }

  predicate InRange(s: Server) {
    |s.slotSequence| == SLOTS && -1 <= s.latest < SLOTS && -1 <= s.leased < SLOTS
  }

  /** Ranges and lease consistency, kept by every step whatever the peer sends. */
  predicate Ok(s: Server) {
    && InRange(s)
    && (s.latest == -1 <==> s.sequence == 0)
    && (s.latest >= 0 ==> s.slotSequence[s.latest] == s.sequence)
    && (s.leased >= 0 ==> s.client.Some? && 0 < s.leasedSequence == s.slotSequence[s.leased] <= s.sequence)
    && (s.leased < 0 ==> s.leasedSequence == 0)
    && (s.replyPending ==> s.leased >= 0 && !s.requestPending && s.reply == FrameReply(s))
    && (s.requestPending ==> s.client.Some? && s.leased < 0 && s.requestAfter <= s.sequence)
  }

  function FrameReply(s: Server): Packet
    requires 0 <= s.leased
  {
    Packet(MAGIC, FRAME, s.leased, s.leasedSequence)
  }

  function Drop(s: Server, kind: Kind): Server {
    if s.client.None? then s
    else s.(client := None, leased := -1, leasedSequence := 0, requestPending := false, replyPending := false,
            deferred := s.deferred + [Event(kind, 0)])
  }

  /** A waiting request is armed with the latest frame once one is new enough. */
  function Arm(s: Server): Server
    requires InRange(s)
  {
    if s.client.Some? && !s.replyPending && s.requestPending && s.latest >= 0 && s.sequence > s.requestAfter then
      var t := s.(leased := s.latest, leasedSequence := s.slotSequence[s.latest]);
      t.(reply := FrameReply(t), replyPending := true, requestPending := false)
    else s
  }

  /** The reply step; the send result matters only if a reply is due. */
  function Respond(s: Server, send: Send): Server
    requires InRange(s)
  {
    var t := Arm(s);
    if t.client.None? || !t.replyPending || send == Blocked then t
    else if send == Sent then t.(replyPending := false)
    else Drop(t, Disconnected)
  }

  function Handle(s: Server, p: Packet): Server {
    if p.magic != MAGIC then Drop(s, ProtocolError)
    else if p.op == RELEASE then
      if s.leased < 0 || s.replyPending || p.value != s.leasedSequence || p.extra != s.leased
      then Drop(s, ProtocolError) else s.(leased := -1, leasedSequence := 0)
    else if p.extra != 0 then Drop(s, ProtocolError)
    else if p.op == REQUEST then
      if s.requestPending || s.replyPending || s.leased >= 0 || p.value > s.sequence
      then Drop(s, ProtocolError) else s.(requestPending := true, requestAfter := p.value)
    else if p.op == TAP then
      if p.value > 15 then Drop(s, ProtocolError) else s.(deferred := s.deferred + [Event(TapInput, p.value)])
    else if p.op == START || p.op == STOP then
      if p.value != 0 then Drop(s, ProtocolError)
      else s.(deferred := s.deferred + [Event(if p.op == START then StartInput else StopInput, 0)])
    else Drop(s, ProtocolError)
  }

  /** The slot a publication writes. */
  function PublishSlot(latest: int, leased: int): (slot: int)
    requires -1 <= latest < SLOTS && -1 <= leased < SLOTS
    ensures 0 <= slot < SLOTS && slot != leased && slot != latest
  {
    var slot := (latest + 1) % SLOTS;
    if slot == leased then (slot + 1) % SLOTS else slot
  }

  function Published(s: Server): Server
    requires InRange(s)
  {
    var slot := PublishSlot(s.latest, s.leased);
    s.(latest := slot, sequence := s.sequence + 1, slotSequence := s.slotSequence[slot := s.sequence + 1])
  }

  // ----- one poll ------------------------------------------------------------

  datatype Accept = AcceptInterrupted | NobodyWaiting | AcceptFailed | Incoming(conn: nat, welcomed: bool)

  /** Connection handling: at most eight tries; the flag says it threw. */
  function AcceptClients(s: Server, tries: seq<Accept>, n: nat := 0): (Server, bool)
    decreases 8 - n
  {
    if n >= 8 || n >= |tries| || tries[n].NobodyWaiting? then (s, false)
    else if tries[n].AcceptFailed? then (s, true)
    else if tries[n].AcceptInterrupted? then AcceptClients(s, tries, n + 1)
    else
      AcceptClients(if s.client.Some? || !tries[n].welcomed then s else s.(client := Some(tries[n].conn)), tries, n + 1)
  }

  datatype Recv = RecvInterrupted | NothingYet | RecvFailed | Closed | WrongSize | Got(packet: Packet)

  /** The receive loop: n packets taken so far, answers from position i on.  A list
      that runs out is a socket with nothing to read. */
  function Drain(s: Server, answers: seq<Recv>, max: nat, i: nat, n: nat): (r: (Server, nat))
    requires i <= |answers| && n <= max
    ensures r.1 <= max
    decreases |answers| - i
  {
    if s.client.None? || n == max || i == |answers| || answers[i].NothingYet? then (s, n)
    else if answers[i].RecvInterrupted? then Drain(s, answers, max, i + 1, n)
    else if answers[i].WrongSize? then (Drop(s, ProtocolError), n + 1)
    else if answers[i].Got? then Drain(Handle(s, answers[i].packet), answers, max, i + 1, n + 1)
    else (Drop(s, Disconnected), n)
  }

  /** A poll up to the point where its events are handed over. */
  function Serviced(s: Server, answers: seq<Recv>, max: nat, more: bool, send: Send): Server
    requires Ok(s)
  {
    var (t, n) := Drain(s, answers, max, 0, 0);
    var u := if t.client.Some? && n == max && more then Drop(t, Overflow) else t;
    DrainKeepsOk(s, answers, max, 0, 0);
    Respond(u, send)
  }

  // ----- what every step keeps -------------------------------------------------

  lemma DropKeepsOk(s: Server, kind: Kind)
    requires Ok(s)
    ensures Ok(Drop(s, kind))
  {
  }

  lemma HandleKeepsOk(s: Server, p: Packet)
    requires Ok(s) && s.client.Some?
    ensures Ok(Handle(s, p))
  {
  }

  lemma RespondKeepsOk(s: Server, send: Send)
    requires Ok(s)
    ensures Ok(Respond(s, send))
    ensures s.leased < 0 && Respond(s, send).leased >= 0 ==> Respond(s, send).leasedSequence == s.sequence > s.requestAfter
  {
  }

  lemma PublishedKeepsOk(s: Server)
    requires Ok(s)
    ensures Ok(Published(s))
  {
  }

  lemma {:induction false} DrainKeepsOk(s: Server, answers: seq<Recv>, max: nat, i: nat, n: nat)
    requires Ok(s) && i <= |answers| && n <= max
    ensures Ok(Drain(s, answers, max, i, n).0)
    decreases |answers| - i
  {
    if s.client.Some? && n < max && i < |answers| {
      match answers[i]
      case RecvInterrupted => DrainKeepsOk(s, answers, max, i + 1, n);
      case Got(p) => HandleKeepsOk(s, p); DrainKeepsOk(Handle(s, p), answers, max, i + 1, n + 1);
      case _ =>
    }
  }

  // ----- the event queue is bounded ---------------------------------------------

  /** Between operations at most one event waits, and only after a disconnection
      that left nothing to reply to. */
  predicate Quiet(s: Server) {
    |s.deferred| == 0 || (|s.deferred| == 1 && !s.requestPending && !s.replyPending)
  }

  lemma {:induction false} DrainBound(s: Server, answers: seq<Recv>, max: nat, i: nat, n: nat)
    requires i <= |answers| && n <= max
    ensures var (t, m) := Drain(s, answers, max, i, n);
            |t.deferred| <= |s.deferred| + (m - n) + (if t.client.None? && s.client.Some? then 1 else 0) &&
            (t.client.Some? ==> s.client.Some?)
    decreases |answers| - i
  {
    if s.client.Some? && n < max && i < |answers| {
      match answers[i]
      case RecvInterrupted => DrainBound(s, answers, max, i + 1, n);
      case Got(p) => DrainBound(Handle(s, p), answers, max, i + 1, n + 1);
      case _ =>
    }
  }

  /** One poll never queues more than its packets plus two events, so neither
      queue outgrows the capacity reserved for it. */
  lemma ServicedBound(s: Server, answers: seq<Recv>, max: nat, more: bool, send: Send)
    requires Ok(s) && Quiet(s) && max <= MAX_POLL_MESSAGES
    ensures |Serviced(s, answers, max, more, send).deferred| <= max + 2 <= MAX_POLL_MESSAGES + 2
  {
    DrainBound(s, answers, max, 0, 0);
    DrainKeepsOk(s, answers, max, 0, 0);
  }

  /** The bound survives every interleaving: publications and failed accepts keep
      the queue quiet, and a finished poll empties it. */
  lemma PublishStaysQuiet(s: Server, send: Send)
    requires Ok(s) && Quiet(s)
    ensures Ok(Published(s)) && Quiet(Respond(Published(s), send))
  {
  }

  lemma {:induction false} AcceptStaysQuiet(s: Server, tries: seq<Accept>, n: nat)
    requires Ok(s) && Quiet(s)
    ensures var t := AcceptClients(s, tries, n).0; Ok(t) && Quiet(t) && t.deferred == s.deferred
    decreases 8 - n
  {
    if n < 8 && n < |tries| && !tries[n].NobodyWaiting? && !tries[n].AcceptFailed? {
      if tries[n].AcceptInterrupted? {
        AcceptStaysQuiet(s, tries, n + 1);
      } else {
        AcceptStaysQuiet(if s.client.Some? || !tries[n].welcomed then s else s.(client := Some(tries[n].conn)), tries, n + 1);
      }
    }
  }

  /** Accepting never replaces a client, and changes nothing but who the client is: a
      connection that was waiting and could be welcomed. */
  lemma {:induction false} AcceptKeepsClient(s: Server, tries: seq<Accept>, n: nat)
    ensures var t := AcceptClients(s, tries, n).0;
            && t == s.(client := t.client) && (s.client.Some? ==> t == s)
            && (t.client != s.client ==> exists i :: n <= i < 8 && i < |tries| && tries[i] == Incoming(t.client.value, true))
    decreases 8 - n
  {
    if n < 8 && n < |tries| && !tries[n].NobodyWaiting? && !tries[n].AcceptFailed? {
      if tries[n].AcceptInterrupted? {
        AcceptKeepsClient(s, tries, n + 1);
      } else {
        AcceptKeepsClient(if s.client.Some? || !tries[n].welcomed then s else s.(client := Some(tries[n].conn)), tries, n + 1);
      }
    }
  }

  datatype Op = Publish(send: Send)
              | Poll(tries: seq<Accept>, answers: seq<Recv>, max: nat, more: bool, reply: Send)

  predicate Allowed(op: Op) {
    op.Poll? ==> 0 < op.max <= MAX_POLL_MESSAGES
  }

  /** The server just before a poll hands its events over, or after a publication. */
  function Loaded(s: Server, op: Op): Server
    requires Ok(s)
  {
    match op
    case Publish(send) => PublishedKeepsOk(s); Respond(Published(s), send)
    case Poll(tries, answers, max, more, send) =>
      var (t, threw) := AcceptClients(s, tries);
      AcceptKeepsOk(s, tries, 0);
      if threw then t else Serviced(t, answers, max, more, send)
  }

  lemma {:induction false} AcceptKeepsOk(s: Server, tries: seq<Accept>, n: nat)
    requires Ok(s)
    ensures Ok(AcceptClients(s, tries, n).0)
    decreases 8 - n
  {
    if n < 8 && n < |tries| && !tries[n].NobodyWaiting? && !tries[n].AcceptFailed? {
      if tries[n].AcceptInterrupted? {
        AcceptKeepsOk(s, tries, n + 1);
      } else {
        AcceptKeepsOk(if s.client.Some? || !tries[n].welcomed then s else s.(client := Some(tries[n].conn)), tries, n + 1);
      }
    }
  }

  /** A poll that gets past accepting empties the queue into its callbacks. */
  function Operate(s: Server, op: Op): Server
    requires Ok(s)
  {
    if op.Poll? && !AcceptClients(s, op.tries).1 then Loaded(s, op).(deferred := []) else Loaded(s, op)
  }

  lemma PollStaysQuiet(s: Server, op: Op)
    requires Ok(s) && Quiet(s) && Allowed(op) && op.Poll?
    ensures Ok(Operate(s, op)) && Quiet(Operate(s, op)) && |Loaded(s, op).deferred| <= MAX_POLL_MESSAGES + 2
  {
    AcceptStaysQuiet(s, op.tries, 0);
    var t := AcceptClients(s, op.tries).0;
    ServicedBound(t, op.answers, op.max, op.more, op.reply);
    OperateKeepsOk(s, op);
  }

  lemma OperateStaysQuiet(s: Server, op: Op)
    requires Ok(s) && Quiet(s) && Allowed(op)
    ensures Ok(Operate(s, op)) && Quiet(Operate(s, op)) && |Loaded(s, op).deferred| <= MAX_POLL_MESSAGES + 2
  {
    match op
    case Publish(send) =>
      PublishStaysQuiet(s, send);
      PublishedKeepsOk(s);
      RespondKeepsOk(Published(s), send);
    case Poll(_, _, _, _, _) => PollStaysQuiet(s, op);
  }

  /** In every interleaving of publications and polls, from a fresh server on, the
      event queue stays within the capacity reserved at construction. */
  lemma {:induction false} QueueNeverGrows(s: Server, ops: seq<Op>, k: nat)
    requires Ok(s) && Quiet(s) && k < |ops| && forall j :: 0 <= j < |ops| ==> Allowed(ops[j])
    ensures Ok(OperateAll(s, ops[..k])) && |Loaded(OperateAll(s, ops[..k]), ops[k]).deferred| <= MAX_POLL_MESSAGES + 2
  {
    OperateAllStaysQuiet(s, ops[..k]);
    OperateStaysQuiet(OperateAll(s, ops[..k]), ops[k]);
  }

  function OperateAll(s: Server, ops: seq<Op>): (t: Server)
    requires Ok(s)
    ensures Ok(t)
  {
    if ops == [] then s
    else
      var t := OperateAll(s, ops[..|ops| - 1]);
      OperateKeepsOk(t, ops[|ops| - 1]);
      Operate(t, ops[|ops| - 1])
  }

  lemma OperateKeepsOk(s: Server, op: Op)
    requires Ok(s)
    ensures Ok(Operate(s, op))
  {
    match op
    case Publish(send) =>
      PublishedKeepsOk(s);
      RespondKeepsOk(Published(s), send);
    case Poll(tries, answers, max, more, send) =>
      AcceptKeepsOk(s, tries, 0);
      var t := AcceptClients(s, tries).0;
      DrainKeepsOk(t, answers, max, 0, 0);
      var (u, n) := Drain(t, answers, max, 0, 0);
      RespondKeepsOk(if u.client.Some? && n == max && more then Drop(u, Overflow) else u, send);
  }

  lemma {:induction false} OperateAllStaysQuiet(s: Server, ops: seq<Op>)
    requires Ok(s) && Quiet(s) && forall j :: 0 <= j < |ops| ==> Allowed(ops[j])
    ensures Quiet(OperateAll(s, ops))
  {
    if ops != [] {
      OperateAllStaysQuiet(s, ops[..|ops| - 1]);
      OperateStaysQuiet(OperateAll(s, ops[..|ops| - 1]), ops[|ops| - 1]);
    }
  }

  // ----- what a poll did, said of the answers it got ----------------------------

  /** An answer that leaves a server without a client still looking for one. */
  predicate PassedOver(a: Accept) {
    a.AcceptInterrupted? || (a.Incoming? && !a.welcomed)
  }

  /** Try number i is the first the server settles on. */
  predicate FirstWelcome(tries: seq<Accept>, i: nat, conn: nat) {
    i < 8 && i < |tries| && tries[i] == Incoming(conn, true) && forall j :: 0 <= j < i ==> PassedOver(tries[j])
  }

  predicate FirstFailure(tries: seq<Accept>, i: nat) {
    i < 8 && i < |tries| && tries[i].AcceptFailed? && forall j :: 0 <= j < i ==> !tries[j].AcceptFailed? && !tries[j].NobodyWaiting?
  }

  /** A server with a client keeps it.  One without takes the first welcome connection of
      the first eight tries, provided nothing but interruptions and unwelcome connections
      came before; and the poll throws exactly when accepting failed within those eight
      tries before nobody was waiting. */
  lemma AcceptExactly(s: Server, tries: seq<Accept>)
    ensures var (t, threw) := AcceptClients(s, tries);
            && (s.client.Some? ==> t.client == s.client)
            && (s.client.None? ==> forall c: nat :: t.client == Some(c) <==> exists i: nat :: FirstWelcome(tries, i, c))
            && (threw <==> exists i: nat :: FirstFailure(tries, i))
  {
    AcceptKeepsClient(s, tries, 0);
    AcceptThrows(s, tries, 0);
    if s.client.None? { AcceptTakesFirst(s, tries, 0); }
  }

  lemma {:induction false} AcceptThrows(s: Server, tries: seq<Accept>, n: nat)
    requires n <= |tries| && forall j :: 0 <= j < n ==> !tries[j].AcceptFailed? && !tries[j].NobodyWaiting?
    ensures AcceptClients(s, tries, n).1 <==> exists i: nat :: FirstFailure(tries, i)
    decreases |tries| - n
  {
    if n < 8 && n < |tries| {
      if tries[n].AcceptFailed? {
        assert FirstFailure(tries, n);
      } else if tries[n].AcceptInterrupted? {
        AcceptThrows(s, tries, n + 1);
      } else if tries[n].Incoming? {
        AcceptThrows(if s.client.Some? || !tries[n].welcomed then s else s.(client := Some(tries[n].conn)), tries, n + 1);
      }
    }
  }

  lemma {:induction false} AcceptTakesFirst(s: Server, tries: seq<Accept>, n: nat)
    requires s.client.None? && n <= |tries| && forall j :: 0 <= j < n ==> PassedOver(tries[j])
    ensures forall c: nat :: AcceptClients(s, tries, n).0.client == Some(c) <==> exists i: nat :: FirstWelcome(tries, i, c)
    decreases |tries| - n
  {
    if n < 8 && n < |tries| {
      if PassedOver(tries[n]) {
        AcceptTakesFirst(s, tries, n + 1);
      } else if tries[n].Incoming? {
        AcceptKeepsClient(s.(client := Some(tries[n].conn)), tries, n + 1);
        assert FirstWelcome(tries, n, tries[n].conn);
      }
    }
  }

  /** The connection is over: nothing is lent or asked any more, and one event says why. */
  predicate Parted(s: Server, t: Server, kind: Kind) {
    && t.client.None? && t.leased == -1 && !t.requestPending && !t.replyPending
    && t.deferred == s.deferred + [Event(kind, 0)] && t.sequence == s.sequence && t.latest == s.latest
  }

  /** A request for a frame newer than one that exists, from a client that holds none and
      has asked for none. */
  predicate ValidRequest(s: Server, p: Packet) {
    && p.magic == MAGIC && p.op == REQUEST && p.extra == 0 && p.value <= s.sequence
    && s.leased < 0 && !s.requestPending && !s.replyPending
  }

  /** The return of exactly what is lent and has been sent. */
  predicate ValidRelease(s: Server, p: Packet) {
    p.magic == MAGIC && p.op == RELEASE && s.leased >= 0 && !s.replyPending && p.value == s.leasedSequence && p.extra == s.leased
  }

  /** The event tells what the input packet asked for. */
  predicate Says(e: Event, p: Packet) {
    && (e.kind == TapInput <==> p.op == TAP) && (e.kind == StartInput <==> p.op == START)
    && (e.kind == StopInput <==> p.op == STOP) && e.lane == p.value
  }

  /** A packet ends the connection exactly when it is neither a well-formed input nor the
      request or release the lease allows now; otherwise it does just what it says. */
  lemma HandleExactly(s: Server, p: Packet)
    requires Ok(s) && s.client.Some?
    ensures var t := Handle(s, p);
            && (t.client.Some? <==> IsInput(p) || ValidRequest(s, p) || ValidRelease(s, p))
            && (t.client.None? ==> Parted(s, t, ProtocolError))
            && (IsInput(p) ==> exists e :: t == s.(deferred := s.deferred + [e]) && Says(e, p))
            && (ValidRequest(s, p) ==> t == s.(requestPending := true, requestAfter := p.value))
            && (ValidRelease(s, p) ==> t == s.(leased := -1, leasedSequence := 0))
  {
    if IsInput(p) {
      assert Says(EventOf(p), p);
      assert Handle(s, p) == s.(deferred := s.deferred + [EventOf(p)]);
    }
  }

  /** A reply is owed: it is waiting to be sent, or a newer frame than asked for is there. */
  predicate Owes(s: Server) {
    s.client.Some? && (s.replyPending || (s.requestPending && s.sequence > s.requestAfter))
  }

  /** The newest frame is lent; the reply naming it is still to be sent, or was sent. */
  predicate Lends(s: Server, t: Server, pending: bool) {
    && t.client == s.client && t.deferred == s.deferred && t.sequence == s.sequence && t.latest == s.latest && t.leased >= 0
    && !t.requestPending && (t.replyPending <==> pending)
    && t.reply == Packet(MAGIC, FRAME, t.leased, t.leasedSequence)
    && (if s.replyPending then t.leased == s.leased && t.leasedSequence == s.leasedSequence
        else t.leased == s.latest && t.leasedSequence == s.sequence)
  }

  /** Replying does nothing unless a reply is owed; then the send decides. */
  lemma RespondExactly(s: Server, send: Send)
    requires Ok(s)
    ensures var t := Respond(s, send);
            if !Owes(s) then t == s
            else if send == Sent || send == Blocked then Lends(s, t, send == Blocked)
            else Parted(s, t, Disconnected)
  {
  }

  /** The packets among the first e answers. */
  function Packets(answers: seq<Recv>, e: nat): seq<Packet>
    requires e <= |answers|
  {
    if e == 0 then [] else Packets(answers, e - 1) + if answers[e - 1].Got? then [answers[e - 1].packet] else []
  }

  function HandleAll(s: Server, ps: seq<Packet>): Server {
    if ps == [] then s else Handle(HandleAll(s, ps[..|ps| - 1]), ps[|ps| - 1])
  }

  /** The first e answers were packets, or interruptions, all taken in while the client
      was there and the capacity unused. */
  predicate TakenUpTo(s: Server, answers: seq<Recv>, max: nat, e: nat) {
    && e <= |answers| && |Packets(answers, e)| <= max
    && (forall j :: 0 <= j < e ==> answers[j].Got? || answers[j].RecvInterrupted?)
    && (forall k :: 0 <= k < |Packets(answers, e)| ==> HandleAll(s, Packets(answers, e)[..k]).client.Some?)
  }

  /** Receiving ended at answer e, as it had to. */
  predicate EndsAt(s: Server, answers: seq<Recv>, max: nat, e: nat, t: Server, n: nat) {
    TakenUpTo(s, answers, max, e) &&
    var ps := Packets(answers, e);
    var v := HandleAll(s, ps);
    if v.client.None? || |ps| == max || e == |answers| || answers[e].NothingYet? then t == v && n == |ps|
    else if answers[e].WrongSize? then Parted(v, t, ProtocolError) && n == |ps| + 1
    else (answers[e].Closed? || answers[e].RecvFailed?) && Parted(v, t, Disconnected) && n == |ps|
  }

  /** Receiving takes every packet up to where it must stop: the client gone, the capacity
      used, nothing more to read, a packet of the wrong size, or the connection ended. */
  lemma DrainExactly(s: Server, answers: seq<Recv>, max: nat) returns (e: nat)
    ensures var (t, n) := Drain(s, answers, max, 0, 0); EndsAt(s, answers, max, e, t, n)
  {
    e := DrainEnds(s, answers, max, 0);
  }

  lemma {:induction false} DrainEnds(s: Server, answers: seq<Recv>, max: nat, i: nat) returns (e: nat)
    requires TakenUpTo(s, answers, max, i)
    ensures var ps := Packets(answers, i);
            var (t, n) := Drain(HandleAll(s, ps), answers, max, i, |ps|);
            EndsAt(s, answers, max, e, t, n)
    decreases |answers| - i
  {
    var ps := Packets(answers, i);
    var v := HandleAll(s, ps);
    if v.client.Some? && |ps| < max && i < |answers| && (answers[i].Got? || answers[i].RecvInterrupted?) {
      DrainSteps(v, answers, max, i, |ps|);
      TakenOneMore(s, answers, max, i);
      e := DrainEnds(s, answers, max, i + 1);
    } else {
      DrainStopped(v, answers, max, i, |ps|);
      e := i;
    }
  }

  lemma DrainSteps(v: Server, answers: seq<Recv>, max: nat, i: nat, n: nat)
    requires v.client.Some? && n < max && i < |answers| && (answers[i].Got? || answers[i].RecvInterrupted?)
    ensures Drain(v, answers, max, i, n) ==
            if answers[i].Got? then Drain(Handle(v, answers[i].packet), answers, max, i + 1, n + 1)
            else Drain(v, answers, max, i + 1, n)
  {
  }

  lemma DrainStopped(v: Server, answers: seq<Recv>, max: nat, i: nat, n: nat)
    requires n <= max && i <= |answers|
    requires v.client.None? || n == max || i == |answers| || !(answers[i].Got? || answers[i].RecvInterrupted?)
    ensures var (t, m) := Drain(v, answers, max, i, n);
            if v.client.None? || n == max || i == |answers| || answers[i].NothingYet? then t == v && m == n
            else if answers[i].WrongSize? then Parted(v, t, ProtocolError) && m == n + 1
            else Parted(v, t, Disconnected) && m == n
  {
  }

  lemma TakenOneMore(s: Server, answers: seq<Recv>, max: nat, i: nat)
    requires TakenUpTo(s, answers, max, i) && i < |answers| && (answers[i].Got? || answers[i].RecvInterrupted?)
    requires |Packets(answers, i)| < max && HandleAll(s, Packets(answers, i)).client.Some?
    ensures TakenUpTo(s, answers, max, i + 1)
    ensures answers[i].Got? ==> |Packets(answers, i + 1)| == |Packets(answers, i)| + 1
    ensures answers[i].Got? ==>
              HandleAll(s, Packets(answers, i + 1)) == Handle(HandleAll(s, Packets(answers, i)), answers[i].packet)
    ensures answers[i].RecvInterrupted? ==> Packets(answers, i + 1) == Packets(answers, i)
  {
    var ps, more := Packets(answers, i), Packets(answers, i + 1);
    if answers[i].Got? {
      assert more == ps + [answers[i].packet];
      assert more[..|more| - 1] == ps;
      forall k | 0 <= k < |more|
        ensures HandleAll(s, more[..k]).client.Some?
      {
        if k < |ps| { assert more[..k] == ps[..k]; }
      }
    } else {
      assert more == ps;
    }
  }

  /** After receiving, a client whose capacity is used while more is waiting is dropped;
      any other is replied to if owed. */
  lemma ServicedExactly(s: Server, answers: seq<Recv>, max: nat, more: bool, send: Send)
    requires Ok(s)
    ensures var (t, n) := Drain(s, answers, max, 0, 0);
            var u := Serviced(s, answers, max, more, send);
            && Ok(t)
            && if t.client.Some? && n == max && more then Parted(t, u, Overflow)
               else if !Owes(t) then u == t
               else if send == Sent || send == Blocked then Lends(t, u, send == Blocked)
               else Parted(t, u, Disconnected)
  {
    DrainKeepsOk(s, answers, max, 0, 0);
    var (t, n) := Drain(s, answers, max, 0, 0);
    RespondExactly(t, send);
  }
}
