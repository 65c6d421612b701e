/** A library client that waits for a newer frame gets it: from every reachable state the
    server and the client alone can bring its read to a success. */
module LeaseProgress {
  import opened Options
  import opened Wire
  import opened ServerRules
  import opened ClientRules
  import opened LeaseSystem
  import opened LeaseProofs
  import opened LeaseRefinement

  /** A step of the server, or of the read call of this client, that meets no failure. */
  predicate Helps(step: Step, c: nat) {
    match step
    case WriteByte => true
    case EndPublish(send) => send == Sent
    case TakePacket => true
    case Reply(send) => send == Sent
    case StartRead(reader) => reader == c
    case GetAnswer(client, a) =>
      client == c && (a == Sending(Sent) || a == Waiting(Ready) || a.Reading? || (a.Receiving? && a.receive.Arrived?))
    case _ => false
  }

  /** Steps of that kind lead from one state to the other. */
  ghost predicate Brings(s: Sys, steps: seq<Step>, t: Sys, c: nat) {
    LeadsTo(s, steps, t) && forall i :: 0 <= i < |steps| ==> Helps(steps[i], c)
  }

  lemma AndThen(s: Sys, a: seq<Step>, t: Sys, b: seq<Step>, u: Sys, c: nat) returns (steps: seq<Step>)
    requires Brings(s, a, t, c) && Brings(t, b, u, c)
    ensures Brings(s, steps, u, c)
  {
    steps := a + b;
    Join(s, a, t, b, u);
  }

  /** The server is free and serves this library client. */
  ghost predicate Linked(s: Sys, c: nat) {
    LeaseRefinement.Ready(s) && Serving(s, c) && Library(s, c)
  }

  /** The server is free and serves this library client, whose finished reads and last
      sequence number are these. */
  ghost predicate Attends(s: Sys, c: nat, results: seq<Read>, seen: nat) {
    && Linked(s, c) && c == |s.conns| - 1
    && s.conns[c].results == results && s.conns[c].reader.client.lastSequence == seen
    && Joint(s.server, s.conns[c], s.history) && ClientOk(s.conns[c], s.history)
  }

  lemma AttendsNow(s: Sys, c: nat)
    requires Linked(s, c)
    ensures Attends(s, c, s.conns[c].results, s.conns[c].reader.client.lastSequence)
  {
    ConnFacts(s, c);
  }

  // ----- single steps -------------------------------------------------------------------

  lemma AnswerOne(s: Sys, c: nat, a: Answer) returns (t: Sys)
    requires Linked(s, c) && Enabled(s, GetAnswer(c, a)) && Helps(GetAnswer(c, a), c)
    ensures Brings(s, [GetAnswer(c, a)], t, c) && t == s.(conns := s.conns[c := AnswerConn(s.conns[c], a)])
    ensures Attends(t, c, AnswerConn(s.conns[c], a).results, AnswerConn(s.conns[c], a).reader.client.lastSequence)
  {
    t := Once(s, GetAnswer(c, a));
    AttendsNow(t, c);
  }

  lemma StartOne(s: Sys, c: nat) returns (t: Sys)
    requires Linked(s, c) && Enabled(s, StartRead(c))
    ensures Brings(s, [StartRead(c)], t, c) && t.server == s.server
    ensures Attends(t, c, s.conns[c].results, s.conns[c].reader.client.lastSequence)
    ensures t.conns[c].reader == Call(s.conns[c].reader.client)
  {
    t := Once(s, StartRead(c));
    AttendsNow(t, c);
  }

  /** What a step of the server leaves alone. */
  ghost predicate SameCall(s: Sys, t: Sys, c: nat) {
    && c < |s.conns| && |t.conns| == |s.conns| && t.conns[c].reader == s.conns[c].reader && t.conns[c].results == s.conns[c].results
    && t.conns[c].open == s.conns[c].open && t.conns[c].raw == s.conns[c].raw && t.server.sequence >= s.server.sequence
  }

  /** A packet of the library never ends its connection. */
  lemma LibraryStays(s: Sys, c: nat)
    requires Linked(s, c) && s.conns[c].up != []
    ensures c == |s.conns| - 1
    ensures var t := Handle(s.server, s.conns[c].up[0]); t.client == s.server.client && t.sequence == s.server.sequence
  {
    ConnFacts(s, c);
    TakenPair(s.server, s.conns[c], s.history);
    HandleRaises(s.server, s.conns[c].up[0]);
  }

  lemma TakeAttends(s: Sys, c: nat) returns (t: Sys)
    requires Linked(s, c) && s.conns[c].up != []
    ensures Brings(s, [TakePacket], t, c) && Linked(t, c) && SameCall(s, t, c)
    ensures t.conns[c].up == s.conns[c].up[1..]
  {
    LibraryStays(s, c);
    t := Once(s, TakePacket);
    TakeStepIs(s);
  }

  lemma ReplyStays(s: Sys, c: nat)
    requires Linked(s, c)
    ensures c == |s.conns| - 1
    ensures var t := Respond(s.server, Sent); t.client == s.server.client && t.sequence == s.server.sequence
  {
    ConnFacts(s, c);
    RespondRaises(s.server, Sent);
  }

  lemma ReplyAttends(s: Sys, c: nat) returns (t: Sys)
    requires Linked(s, c)
    ensures Brings(s, [Reply(Sent)], t, c) && Linked(t, c) && SameCall(s, t, c)
    ensures t.conns[c].up == s.conns[c].up
    ensures t.conns[c].down == s.conns[c].down + if SendsReply(s.server, Sent) then [Arm(s.server).reply] else []
  {
    ReplyStays(s, c);
    t := Once(s, Reply(Sent));
    ReplyStepIs(s, Sent);
  }

  // ----- finishing a publication ----------------------------------------------------------

  lemma {:induction false} WriteRest(s: Sys, c: nat) returns (steps: seq<Step>, t: Sys)
    requires Inv(s) && s.writing.Some?
    ensures Brings(s, steps, t, c) && Inv(t) && t == s.(memory := t.memory, writing := t.writing)
    ensures t.writing.Some? && t.writing.value.done == FRAME_BYTES
    decreases FRAME_BYTES - s.writing.value.done
  {
    if s.writing.value.done == FRAME_BYTES {
      steps, t := [], s;
    } else {
      var u := WriteOne(s);
      var rest;
      rest, t := WriteRest(u, c);
      steps := AndThen(s, [WriteByte], u, rest, t, c);
    }
  }

  lemma EndAttends(s: Sys, c: nat) returns (t: Sys)
    requires Inv(s) && Serving(s, c) && Library(s, c) && s.writing.Some? && s.writing.value.done == FRAME_BYTES
    ensures Brings(s, [EndPublish(Sent)], t, c) && Linked(t, c) && SameCall(s, t, c)
  {
    t := Once(s, EndPublish(Sent));
    PublishedKeepsOk(s.server);
    RespondRaises(Published(s.server), Sent);
    ConnFacts(s, c);
    ReplyStepIs(Installed(s), Sent);
  }

  /** The mutex is given back. */
  lemma FreeServer(s: Sys, c: nat) returns (steps: seq<Step>, t: Sys)
    requires Inv(s) && Serving(s, c) && Library(s, c)
    ensures Brings(s, steps, t, c) && Linked(t, c) && SameCall(s, t, c)
  {
    if s.writing.None? {
      steps, t := [], s;
    } else {
      var writes, a := WriteRest(s, c);
      t := EndAttends(a, c);
      steps := AndThen(s, writes, a, [EndPublish(Sent)], t, c);
    }
  }

  // ----- asking ------------------------------------------------------------------------------

  /** The call has released what it held, and its request is on its way. */
  lemma AskOnce(s: Sys, c: nat, results: seq<Read>, seen: nat) returns (steps: seq<Step>, t: Sys)
    requires Attends(s, c, results, seen) && s.conns[c].reader == Call(s.conns[c].reader.client)
    ensures Brings(s, steps, t, c) && Attends(t, c, results, seen) && t.server == s.server
    ensures t.conns[c].reader.pc == WaitReply && t.conns[c].reader.client.requestPending
  {
    var first, a := [], s;
    if s.conns[c].reader.pc.SendRelease? {
      first := [GetAnswer(c, Sending(Sent))];
      a := AnswerOne(s, c, Sending(Sent));
    }
    if a.conns[c].reader.pc.SendRequest? {
      t := AnswerOne(a, c, Sending(Sent));
      steps := AndThen(s, first, a, [GetAnswer(c, Sending(Sent))], t, c);
    } else {
      steps, t := first, a;
    }
  }

  /** The server has read everything in flight. */
  lemma {:induction false} TakeAll(s: Sys, c: nat) returns (steps: seq<Step>, t: Sys)
    requires Linked(s, c)
    ensures Brings(s, steps, t, c) && Linked(t, c) && SameCall(s, t, c) && t.conns[c].up == []
    decreases |s.conns[c].up|
  {
    if s.conns[c].up == [] {
      steps, t := [], s;
    } else {
      var u := TakeAttends(s, c);
      var rest;
      rest, t := TakeAll(u, c);
      steps := AndThen(s, [TakePacket], u, rest, t, c);
    }
  }

  /** With nothing in flight to the server and a newer frame published, the reply is due
      or has been sent. */
  lemma ReplyIsDue(s: Sys, c: nat, seen: nat)
    requires Linked(s, c) && Joint(s.server, s.conns[c], s.history) && s.conns[c].up == []
    requires s.conns[c].reader.pc == WaitReply && s.conns[c].reader.client.requestPending
    requires s.conns[c].reader.client.lastSequence == seen < s.server.sequence
    ensures s.conns[c].down != [] || SendsReply(s.server, Sent)
  {
    assert LeaseOnly(s.conns[c].up) == [];
  }

  lemma Answered(s: Sys, c: nat, results: seq<Read>, seen: nat) returns (steps: seq<Step>, t: Sys)
    requires Attends(s, c, results, seen) && seen < s.server.sequence
    requires s.conns[c].reader.pc == WaitReply && s.conns[c].reader.client.requestPending
    ensures Brings(s, steps, t, c) && Attends(t, c, results, seen) && t.conns[c].reader == s.conns[c].reader && t.conns[c].down != []
  {
    var takes, a := TakeAll(s, c);
    AttendsNow(a, c);
    ReplyIsDue(a, c, seen);
    if a.conns[c].down != [] {
      steps, t := takes, a;
    } else {
      t := ReplyAttends(a, c);
      AttendsNow(t, c);
      steps := AndThen(s, takes, a, [Reply(Sent)], t, c);
    }
  }

  // ----- copying -----------------------------------------------------------------------------

  lemma Woken(s: Sys, c: nat, results: seq<Read>, seen: nat) returns (t: Sys)
    requires Attends(s, c, results, seen) && s.conns[c].reader.pc == WaitReply && s.conns[c].down != []
    ensures Brings(s, [GetAnswer(c, Waiting(Ready))], t, c) && Attends(t, c, results, seen)
    ensures t.conns[c].reader.pc == ReceiveReply && t.conns[c].down == s.conns[c].down
  {
    t := AnswerOne(s, c, Waiting(Ready));
  }

  lemma Collected(s: Sys, c: nat, results: seq<Read>, seen: nat) returns (step: Step, t: Sys)
    requires Attends(s, c, results, seen) && s.conns[c].reader.pc == ReceiveReply && s.conns[c].down != []
    ensures Brings(s, [step], t, c) && Attends(t, c, results, seen)
    ensures t.conns[c].reader.pc.Copying? && t.conns[c].reader.pc.sequence > seen
  {
    var arrived := Receiving(Arrived(s.conns[c].down[0], true));
    step := GetAnswer(c, arrived);
    t := AnswerOne(s, c, arrived);
  }

  lemma CopyOne(s: Sys, c: nat, results: seq<Read>, seen: nat) returns (step: Step, t: Sys)
    requires Attends(s, c, results, seen) && s.conns[c].reader.pc.Copying?
    ensures Brings(s, [step], t, c) && c < |t.conns|
    ensures var pc, after := s.conns[c].reader.pc, t.conns[c].reader.pc;
            if |pc.copied| + 1 < FRAME_BYTES then
              Attends(t, c, results, seen) && after.Copying? && after.sequence == pc.sequence && |after.copied| == |pc.copied| + 1
            else
              Attends(t, c, results, pc.sequence) && after.FinalRelease? && after.number == pc.sequence
  {
    var pc := s.conns[c].reader.pc;
    var a := Reading(s.memory[pc.slot][|pc.copied|]);
    step := GetAnswer(c, a);
    t := AnswerOne(s, c, a);
  }

  lemma {:induction false} CopyAll(s: Sys, c: nat, results: seq<Read>, seen: nat) returns (steps: seq<Step>, t: Sys)
    requires Attends(s, c, results, seen) && s.conns[c].reader.pc.Copying?
    ensures Brings(s, steps, t, c) && Attends(t, c, results, s.conns[c].reader.pc.sequence)
    ensures t.conns[c].reader.pc.FinalRelease? && t.conns[c].reader.pc.number == s.conns[c].reader.pc.sequence
    decreases FRAME_BYTES - |s.conns[c].reader.pc.copied|
  {
    var step, u := CopyOne(s, c, results, seen);
    if u.conns[c].reader.pc.Copying? {
      var rest;
      rest, t := CopyAll(u, c, results, seen);
      steps := AndThen(s, [step], u, rest, t, c);
    } else {
      steps, t := [step], u;
    }
  }

  /** The call has ended well, with the frame published under its number. */
  ghost predicate Succeeded(t: Sys, c: nat, results: seq<Read>, number: nat) {
    && c < |t.conns| && t.conns[c].reader.pc.Idle? && 0 < number <= |t.history|
    && t.conns[c].results == results + [Read(Success, number, t.history[number - 1])]
  }

  /** The lease goes back. */
  lemma Returned(s: Sys, c: nat, results: seq<Read>, number: nat) returns (t: Sys)
    requires Attends(s, c, results, number) && s.conns[c].reader.pc.FinalRelease? && s.conns[c].reader.pc.number == number
    ensures Brings(s, [GetAnswer(c, Sending(Sent))], t, c) && Succeeded(t, c, results, number)
  {
    t := AnswerOne(s, c, Sending(Sent));
  }

  // ----- the whole read ------------------------------------------------------------------------

  lemma ReadCopies(s: Sys, c: nat, results: seq<Read>, seen: nat) returns (steps: seq<Step>, t: Sys)
    requires Attends(s, c, results, seen) && s.conns[c].reader.pc.Idle? && seen < s.server.sequence
    ensures Brings(s, steps, t, c) && Attends(t, c, results, seen)
    ensures t.conns[c].reader.pc.Copying? && t.conns[c].reader.pc.sequence > seen
  {
    var a := StartOne(s, c);
    var asks, b := AskOnce(a, c, results, seen);
    var first := AndThen(s, [StartRead(c)], a, asks, b, c);
    var replies, d := Answered(b, c, results, seen);
    first := AndThen(s, first, b, replies, d, c);
    var e := Woken(d, c, results, seen);
    first := AndThen(s, first, d, [GetAnswer(c, Waiting(Ready))], e, c);
    var step;
    step, t := Collected(e, c, results, seen);
    steps := AndThen(s, first, e, [step], t, c);
  }

  lemma CopyEnds(s: Sys, c: nat, results: seq<Read>, seen: nat) returns (steps: seq<Step>, t: Sys, number: nat)
    requires Attends(s, c, results, seen) && s.conns[c].reader.pc.Copying? && s.conns[c].reader.pc.sequence > seen
    ensures Brings(s, steps, t, c) && Succeeded(t, c, results, number) && number > seen
  {
    number := s.conns[c].reader.pc.sequence;
    var copies, a := CopyAll(s, c, results, seen);
    t := Returned(a, c, results, number);
    steps := AndThen(s, copies, a, [GetAnswer(c, Sending(Sent))], t, c);
  }

  /** From every state a run can reach in which a library client is served, makes no call
      and a newer frame than its last is published, the server and that client alone can
      go on so that its next read succeeds, with a newer frame exactly as published. */
  lemma ReadCanSucceed(s: Sys, c: nat) returns (steps: seq<Step>, t: Sys, number: nat)
    requires Inv(s) && Serving(s, c) && Library(s, c) && s.conns[c].reader.pc.Idle?
    requires s.server.sequence > s.conns[c].reader.client.lastSequence
    ensures Brings(s, steps, t, c)
    ensures Succeeded(t, c, s.conns[c].results, number) && number > s.conns[c].reader.client.lastSequence
  {
    var results, seen := s.conns[c].results, s.conns[c].reader.client.lastSequence;
    var frees, a := FreeServer(s, c);
    AttendsNow(a, c);
    assert Attends(a, c, results, seen);
    var copies, b := ReadCopies(a, c, results, seen);
    var first := AndThen(s, frees, a, copies, b, c);
    var ends;
    ends, t, number := CopyEnds(b, c, results, seen);
    steps := AndThen(s, first, b, ends, t, c);
  }
}
