/** The client half of the frame lease as a step function: a read call is a
    program counter that moves with every answer the environment gives it. */
module ClientRules {
  import opened Wire

  datatype Result = Success | Timeout | WouldBlock | BadArgument | SystemError | Protocol | Lost

  datatype Client = Client(lastSequence: nat, requestPending: bool, releasePending: bool, releasePacket: Packet)

  /** Where a read call stands; Done carries its result and, if Success, the frame. */
  datatype Pc = Idle
              | SendRelease | WaitRelease
              | SendRequest | WaitRequest
              | WaitReply | ReceiveReply
              | Copying(slot: nat, sequence: nat, copied: seq<Byte>)
              | FinalRelease(number: nat, image: seq<Byte>)
              | Done(code: Result, returned: nat, pixels: seq<Byte>)

  datatype Wait = Ready | TimedOut | HungUp | WaitError

  datatype Receive = Again | EndOfFile | ReceiveError | Arrived(packet: Packet, whole: bool)

  datatype Answer = Sending(send: Send) | Waiting(wait: Wait) | Receiving(receive: Receive) | Reading(byte: Byte)

  datatype Reader = Reader(client: Client, pc: Pc)

  const CONNECTED: Client := Client(0, false, false, Packet(0, 0, 0, 0))

  function Fail(code: Result): Pc {
    Done(code, 0, [])
  }

  function RequestPacket(c: Client): Packet {
    Packet(MAGIC, REQUEST, c.lastSequence, 0)
  }

  /** The first thing a read call does. */
  function Enter(c: Client): Pc {
    if c.releasePending then SendRelease else AfterRelease(c)
  }

  function AfterRelease(c: Client): Pc {
    if c.requestPending then WaitReply else SendRequest
  }

  /** The answers the pending operation can get. */
  predicate Fits(pc: Pc, a: Answer) {
    match pc
    case SendRelease => a.Sending?
    case SendRequest => a.Sending?
    case FinalRelease(_, _) => a.Sending?
    case WaitRelease => a.Waiting?
    case WaitRequest => a.Waiting?
    case WaitReply => a.Waiting?
    case ReceiveReply => a.Receiving?
    case Copying(_, _, _) => a.Reading?
    case _ => false
  }

  /** The packet the pending send offers. */
  function Offer(r: Reader): Packet {
    if r.pc.SendRequest? then RequestPacket(r.client) else r.client.releasePacket
  }

  function WaitFailure(w: Wait): Result {
    if w == TimedOut then Timeout else if w == HungUp then Lost else SystemError
  }

  function SendFailure(s: Send): Result {
    if s == Gone then Lost else SystemError
  }

  predicate Acceptable(c: Client, p: Packet) {
    p.magic == MAGIC && p.op == FRAME && p.value < SLOTS && p.extra > c.lastSequence
  }

  function AfterSend(r: Reader, s: Send): Reader
    requires r.pc.SendRelease? || r.pc.SendRequest? || r.pc.FinalRelease?
  {
    match r.pc
    case SendRelease =>
      if s == Sent then var c := r.client.(releasePending := false); Reader(c, AfterRelease(c))
      else r.(pc := if s == Blocked then WaitRelease else Fail(SendFailure(s)))
    case SendRequest =>
      if s == Sent then Reader(r.client.(requestPending := true), WaitReply)
      else r.(pc := if s == Blocked then WaitRequest else Fail(SendFailure(s)))
    case FinalRelease(number, image) =>
      if s == Sent then Reader(r.client.(releasePending := false), Done(Success, number, image))
      else r.(pc := if s == Blocked then Done(Success, number, image) else Fail(SendFailure(s)))
  }

  function AfterWait(r: Reader, w: Wait): Reader
    requires r.pc.WaitRelease? || r.pc.WaitRequest? || r.pc.WaitReply?
  {
    r.(pc := if w != Ready then Fail(WaitFailure(w))
             else if r.pc.WaitRelease? then SendRelease
             else if r.pc.WaitRequest? then SendRequest
             else ReceiveReply)
  }

  function AfterReceive(r: Reader, answer: Receive): Reader {
    match answer
    case Again => r.(pc := WaitReply)
    case EndOfFile => r.(pc := Fail(Lost))
    case ReceiveError => r.(pc := Fail(SystemError))
    case Arrived(p, whole) =>
      r.(pc := if whole && Acceptable(r.client, p) then Copying(p.value, p.extra, []) else Fail(Protocol))
  }

  /** Once the last byte is copied the call records the frame and owes a release. */
  function AfterByte(r: Reader, b: Byte): Reader
    requires r.pc.Copying?
  {
    var copied := r.pc.copied + [b];
    if |copied| < FRAME_BYTES then r.(pc := Copying(r.pc.slot, r.pc.sequence, copied))
    else Reader(Client(r.pc.sequence, false, true, Packet(MAGIC, RELEASE, r.pc.sequence, r.pc.slot)),
                FinalRelease(r.pc.sequence, copied))
  }

  function Advance(r: Reader, a: Answer): Reader
    requires Fits(r.pc, a)
  {
    match a
    case Sending(s) => AfterSend(r, s)
    case Waiting(w) => AfterWait(r, w)
    case Receiving(v) => AfterReceive(r, v)
    case Reading(b) => AfterByte(r, b)
  }

  // ----- whole calls ----------------------------------------------------------

  /** The answers from position i on are exactly what finishes the call. */
  predicate Completes(r: Reader, answers: seq<Answer>, i: nat)
    requires i <= |answers|
    decreases |answers| - i
  {
    if r.pc.Done? then i == |answers|
    else i < |answers| && Fits(r.pc, answers[i]) && Completes(Advance(r, answers[i]), answers, i + 1)
  }

  function Finish(r: Reader, answers: seq<Answer>, i: nat := 0): (done: Reader)
    requires i <= |answers| && Completes(r, answers, i)
    ensures done.pc.Done?
    decreases |answers| - i
  {
    if r.pc.Done? then r else Finish(Advance(r, answers[i]), answers, i + 1)
  }

  function Call(c: Client): Reader {
    Reader(c, Enter(c))
  }

  // ----- what a whole call did, said of its answers -----------------------------

  /** How many of the first n answers report a packet sent. */
  function Sents(answers: seq<Answer>, n: nat): nat
    requires n <= |answers|
  {
    if n == 0 then 0 else Sents(answers, n - 1) + if answers[n - 1] == Sending(Sent) then 1 else 0
  }

  /** A reply is usable if it is a whole FRAME packet naming one of the slots under a
      larger number than any the client has seen. */
  predicate Usable(r: Receive, seen: nat) {
    r.Arrived? && r.whole && r.packet == Packet(MAGIC, FRAME, r.packet.value, r.packet.extra) && r.packet.value < SLOTS && r.packet.extra > seen
  }

  /** An answer a call can go on after. */
  predicate Continues(a: Answer, seen: nat) {
    match a
    case Sending(s) => s == Sent || s == Blocked
    case Waiting(w) => w == Ready
    case Receiving(v) => v == Again || Usable(v, seen)
    case Reading(_) => true
  }

  /** The n answers before position i are the bytes of the image, right after the reply. */
  predicate CopiedBefore(answers: seq<Answer>, i: nat, reply: Packet, image: seq<Byte>)
    requires i <= |answers|
  {
    && i > |image| && answers[i - |image| - 1] == Receiving(Arrived(reply, true))
    && forall n :: 0 <= n < |image| ==> answers[i - |image| + n] == Reading(image[n])
  }

  /** No new frame: the pending release, then the request, were taken off the client's
      hands as often as a packet was sent. */
  predicate SentOnly(before: Client, after: Client, sents: nat) {
    var releases, requests := if before.releasePending then 1 else 0, if before.requestPending then 0 else 1;
    && after.lastSequence == before.lastSequence && after.releasePacket == before.releasePacket
    && (after.releasePending <==> before.releasePending && sents == 0)
    && (after.requestPending <==> before.requestPending || sents == releases + requests)
    && sents <= releases + requests
  }

  /** A new frame: the last answer is what became of the release, and before it come the
      reply and the bytes of the frame. */
  predicate CopiedWhole(before: Client, after: Client, answers: seq<Answer>) {
    var n := |answers| - FRAME_BYTES - 2;
    && n >= 0 && answers[n].Receiving? && Usable(answers[n].receive, before.lastSequence)
    && (forall j :: n < j < |answers| - 1 ==> answers[j].Reading?) && answers[|answers| - 1].Sending?
    && var p := answers[n].receive.packet;
       after == Client(p.extra, false, answers[|answers| - 1] != Sending(Sent), Packet(MAGIC, RELEASE, p.extra, p.value))
  }

  /** What a read call that got these answers leaves behind and reports: the code is
      decided by the last answer and by whether the client's sequence number grew. */
  predicate ReadsExactly(before: Client, answers: seq<Answer>, after: Client, code: Result, returned: nat, pixels: seq<Byte>) {
    answers != [] &&
    var last, grew := answers[|answers| - 1], after.lastSequence > before.lastSequence;
    && (code == Success <==> grew && (last == Sending(Sent) || last == Sending(Blocked)))
    && (code == Timeout <==> last == Waiting(TimedOut))
    && (code == Lost <==> last == Waiting(HungUp) || last == Sending(Gone) || last == Receiving(EndOfFile))
    && (code == SystemError <==> last == Waiting(WaitError) || last == Sending(SendError) || last == Receiving(ReceiveError))
    && (code == Protocol <==> last.Receiving? && last.receive.Arrived? && !Usable(last.receive, before.lastSequence))
    && code != WouldBlock && code != BadArgument
    && (forall j :: 0 <= j < |answers| - 1 ==> Continues(answers[j], before.lastSequence))
    && (grew <==> exists j :: 0 <= j < |answers| && answers[j].Receiving? && Usable(answers[j].receive, before.lastSequence))
    && (if grew then CopiedWhole(before, after, answers) else SentOnly(before, after, Sents(answers, |answers|)))
    && (code == Success ==>
          && returned == after.lastSequence && |pixels| == FRAME_BYTES
          && forall n :: 0 <= n < FRAME_BYTES ==> answers[|answers| - 1 - FRAME_BYTES + n] == Reading(pixels[n]))
  }

  /** What is so before answer i of a call that began with the given client. */
  predicate Since(before: Client, answers: seq<Answer>, i: nat, r: Reader)
    requires i <= |answers|
  {
    if r.pc.Done? then i == |answers| ==> ReadsExactly(before, answers, r.client, r.pc.code, r.pc.returned, r.pc.pixels)
    else (forall j :: 0 <= j < i ==> Continues(answers[j], before.lastSequence)) && Midway(before, answers, i, r)
  }

  predicate Midway(before: Client, answers: seq<Answer>, i: nat, r: Reader)
    requires i <= |answers|
  {
    match r.pc
    case Idle => false
    case Done(_, _, _) => false
    case Copying(slot, sequence, copied) =>
      && SentOnly(before, r.client, Sents(answers, i)) && r.client.requestPending && !r.client.releasePending
      && slot < SLOTS && sequence > before.lastSequence && |copied| < FRAME_BYTES
      && CopiedBefore(answers, i, Packet(MAGIC, FRAME, slot, sequence), copied)
    case FinalRelease(number, image) =>
      && number > before.lastSequence && |image| == FRAME_BYTES && r.client.releasePacket.extra < SLOTS
      && r.client == Client(number, false, true, Packet(MAGIC, RELEASE, number, r.client.releasePacket.extra))
      && CopiedBefore(answers, i, Packet(MAGIC, FRAME, r.client.releasePacket.extra, number), image)
    case _ =>
      && SentOnly(before, r.client, Sents(answers, i))
      && (forall j :: 0 <= j < i && answers[j].Receiving? ==> !Usable(answers[j].receive, before.lastSequence))
      && (r.client.releasePending <==> r.pc.SendRelease? || r.pc.WaitRelease?)
      && (r.client.requestPending <== r.pc.WaitReply? || r.pc.ReceiveReply?)
      && (r.pc.SendRequest? || r.pc.WaitRequest? ==> !r.client.requestPending)
  }

  lemma SendSince(before: Client, answers: seq<Answer>, i: nat, r: Reader)
    requires i < |answers| && Since(before, answers, i, r) && Fits(r.pc, answers[i]) && answers[i].Sending?
    ensures Since(before, answers, i + 1, Advance(r, answers[i]))
  {
    if r.pc.FinalRelease? { FinalSince(before, answers, i, r); }
  }

  lemma FinalSince(before: Client, answers: seq<Answer>, i: nat, r: Reader)
    requires i < |answers| && Since(before, answers, i, r) && r.pc.FinalRelease? && answers[i].Sending?
    ensures Since(before, answers, i + 1, Advance(r, answers[i]))
  {
    var image := r.pc.image;
    assert answers[i - FRAME_BYTES - 1].Receiving?;
    assert forall j :: i - FRAME_BYTES <= j < i ==> answers[j] == Reading(image[j - (i - FRAME_BYTES)]);
  }

  lemma WaitSince(before: Client, answers: seq<Answer>, i: nat, r: Reader)
    requires i < |answers| && Since(before, answers, i, r) && Fits(r.pc, answers[i]) && answers[i].Waiting?
    ensures Since(before, answers, i + 1, Advance(r, answers[i]))
  {
  }

  lemma ReceiveSince(before: Client, answers: seq<Answer>, i: nat, r: Reader)
    requires i < |answers| && Since(before, answers, i, r) && Fits(r.pc, answers[i]) && answers[i].Receiving?
    ensures Since(before, answers, i + 1, Advance(r, answers[i]))
  {
  }

  lemma ByteSince(before: Client, answers: seq<Answer>, i: nat, r: Reader)
    requires i < |answers| && Since(before, answers, i, r) && Fits(r.pc, answers[i]) && answers[i].Reading?
    ensures Since(before, answers, i + 1, Advance(r, answers[i]))
  {
  }

  lemma {:induction false} FinishSince(before: Client, answers: seq<Answer>, i: nat, r: Reader)
    requires i <= |answers| && Since(before, answers, i, r) && Completes(r, answers, i)
    ensures Since(before, answers, |answers|, Finish(r, answers, i))
    decreases |answers| - i
  {
    if !r.pc.Done? {
      match answers[i] {
        case Sending(_) => SendSince(before, answers, i, r);
        case Waiting(_) => WaitSince(before, answers, i, r);
        case Receiving(_) => ReceiveSince(before, answers, i, r);
        case Reading(_) => ByteSince(before, answers, i, r);
      }
      FinishSince(before, answers, i + 1, Advance(r, answers[i]));
    }
  }

  /** For every complete list of answers, whatever the client's state. */
  lemma CallReadsExactly(c: Client, answers: seq<Answer>)
    requires Completes(Call(c), answers, 0)
    ensures var done := Finish(Call(c), answers);
            ReadsExactly(c, answers, done.client, done.pc.code, done.pc.returned, done.pc.pixels)
  {
    assert Since(c, answers, 0, Call(c));
    FinishSince(c, answers, 0, Call(c));
  }
}
