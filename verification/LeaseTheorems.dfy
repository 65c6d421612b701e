/** What the frame lease promises over whole runs, from the joint invariant. */
module LeaseTheorems {
  import opened Options
  import opened Wire
  import opened ServerRules
  import opened ClientRules
  import opened LeaseSystem
  import opened LeaseProofs

  /** The system after any run from the start. */
  function Reached(steps: seq<Step>): Sys
    requires Runs(Init(), steps)
  {
    After(Init(), steps)
  }

  lemma ReachedIsInvariant(steps: seq<Step>)
    requires Runs(Init(), steps)
    ensures Inv(Reached(steps))
  {
    InitHolds();
    RunsKeepInv(Init(), steps);
  }

  // ----- no torn frame -------------------------------------------------------------

  /** Every successful read, of any connection, in any interleaving and whatever raw
      peers send on other connections, copied exactly the bytes published under the
      sequence number it returned, and later reads of a connection return larger numbers. */
  lemma NoTornFrame(steps: seq<Step>, c: nat, i: nat)
    requires Runs(Init(), steps)
    requires c < |Reached(steps).conns| && i < |Reached(steps).conns[c].results|
    requires Reached(steps).conns[c].results[i].code == Success
    ensures var s := Reached(steps);
            var read := s.conns[c].results[i];
            && 0 < read.sequence <= |s.history| && read.image == s.history[read.sequence - 1]
            && (forall j :: 0 <= j < i && s.conns[c].results[j].code == Success ==>
                  s.conns[c].results[j].sequence < read.sequence)
  {
    ReachedIsInvariant(steps);
    ConnFacts(Reached(steps), c);
  }

  /** The frames a run published, in order. */
  function Frames(steps: seq<Step>, drawing: seq<Byte>): seq<seq<Byte>> {
    if steps == [] then []
    else match steps[0]
      case BeginPublish(image) => Frames(steps[1..], image)
      case EndPublish(_) => [drawing] + Frames(steps[1..], drawing)
      case _ => Frames(steps[1..], drawing)
  }

  predicate Drawing(s: Sys, drawing: seq<Byte>) {
    s.writing.Some? ==> s.writing.value.image == drawing
  }

  lemma FramesHead(steps: seq<Step>, drawing: seq<Byte>)
    requires steps != []
    ensures var next := if steps[0].BeginPublish? then steps[0].image else drawing;
            Frames(steps, drawing) == (if steps[0].EndPublish? then [drawing] else []) + Frames(steps[1..], next)
  {
  }

  lemma FirstStep(s: Sys, steps: seq<Step>, drawing: seq<Byte>) returns (t: Sys, next: seq<Byte>)
    requires Runs(s, steps) && steps != [] && Drawing(s, drawing)
    ensures Runs(t, steps[1..]) && After(s, steps) == After(t, steps[1..]) && Drawing(t, next)
    ensures t.history + Frames(steps[1..], next) == s.history + Frames(steps, drawing)
  {
    t := Apply(s, steps[0]);
    next := if steps[0].BeginPublish? then steps[0].image else drawing;
    OneStepHistory(s, steps[0], drawing);
    FramesHead(steps, drawing);
    var done := if steps[0].EndPublish? then [drawing] else [];
    assert t.history == s.history + done;
    assert (s.history + done) + Frames(steps[1..], next) == s.history + (done + Frames(steps[1..], next));
  }

  lemma {:induction false} HistoryGrowsBy(s: Sys, steps: seq<Step>, drawing: seq<Byte>)
    requires Runs(s, steps) && Drawing(s, drawing)
    ensures After(s, steps).history == s.history + Frames(steps, drawing)
    decreases |steps|
  {
    if steps != [] {
      var t, next := FirstStep(s, steps, drawing);
      HistoryGrowsBy(t, steps[1..], next);
    }
  }

  lemma OneStepHistory(s: Sys, step: Step, drawing: seq<Byte>)
    requires Shaped(s) && Enabled(s, step) && Drawing(s, drawing)
    ensures Apply(s, step).history == if step.EndPublish? then s.history + [drawing] else s.history
    ensures Drawing(Apply(s, step), if step.BeginPublish? then step.image else drawing)
  {
  }

  /** Sequence number n names the n-th frame handed to publish. */
  lemma HistoryIsWhatWasPublished(steps: seq<Step>)
    requires Runs(Init(), steps)
    ensures Reached(steps).history == Frames(steps, [])
  {
    HistoryGrowsBy(Init(), steps, []);
  }

  // ----- publishing never waits ------------------------------------------------------

  /** Whatever the clients do, a publication can start when none is running, and a
      running one can take its next step, into a slot that is neither lent nor latest. */
  lemma PublishIsNeverBlocked(steps: seq<Step>, image: seq<Byte>, send: Send)
    requires Runs(Init(), steps) && |image| == FRAME_BYTES
    ensures var s := Reached(steps);
            if s.writing.None? then Enabled(s, BeginPublish(image))
            else
              && (Enabled(s, WriteByte) || Enabled(s, EndPublish(send)))
              && s.writing.value.slot != s.server.leased && s.writing.value.slot != s.server.latest
  {
    ReachedIsInvariant(steps);
  }

  /** While a slot stays lent under the same number, no step changes a byte of it. */
  lemma LentSlotIsImmutable(s: Sys, step: Step)
    requires Inv(s) && Enabled(s, step) && s.server.leased >= 0
    ensures Apply(s, step).memory[s.server.leased] == s.memory[s.server.leased]
  {
  }

  /** Publishing to a server with a waiting request lends the new frame at once. */
  lemma PublicationArms(v: Server)
    requires Ok(v) && v.requestPending
    ensures var a := Arm(Published(v));
            && a.replyPending && a.client == v.client && a.leased == PublishSlot(v.latest, v.leased)
            && a.reply == Packet(MAGIC, FRAME, a.leased, v.sequence + 1)
            && Respond(Published(v), Sent) == a.(replyPending := false) && SendsReply(Published(v), Sent)
  {
  }

  /** A waiting request is answered by the next publication, with that very frame. */
  lemma PublicationAnswersRequest(s: Sys)
    requires Inv(s) && Enabled(s, EndPublish(Sent)) && s.server.requestPending
    ensures var t, c, slot := Apply(s, EndPublish(Sent)), |s.conns| - 1, s.writing.value.slot;
            && Serving(t, c) && |t.conns| == |s.conns| && t.server.leased == slot
            && t.conns[c].down == s.conns[c].down + [Packet(MAGIC, FRAME, slot, |t.history|)]
            && t.history == s.history + [s.writing.value.image] && t.memory[slot] == s.writing.value.image
  {
    FinishedSlot(s);
    PublicationArms(s.server);
    PublishedKeepsOk(s.server);
    ArmedReplyIs(Installed(s));
  }

  /** A publication written to its end has filled its slot. */
  lemma FinishedSlot(s: Sys)
    requires MemoryOk(s) && s.writing.Some? && s.writing.value.done == FRAME_BYTES
    ensures s.writing.value.slot == PublishSlot(s.server.latest, s.server.leased)
    ensures s.memory[s.writing.value.slot] == s.writing.value.image
  {
    var w := s.writing.value;
    assert s.memory[w.slot][..w.done] == s.memory[w.slot] && w.image[..w.done] == w.image;
  }

  /** A reply that is due and sent only lengthens the channel to the client. */
  lemma ArmedReplyIs(s: Sys)
    requires Ok(s.server) && Served(s) && s.server.client.value == |s.conns| - 1
    requires SendsReply(s.server, Sent) && Respond(s.server, Sent).client.Some?
    ensures var c := |s.conns| - 1;
            ReplyStep(s, Sent) == s.(server := Respond(s.server, Sent),
              conns := s.conns[c := s.conns[c].(down := s.conns[c].down + [Arm(s.server).reply])])
  {
    ReplyStepIs(s, Sent);
    assert s.conns[|s.conns| - 1].events + [] == s.conns[|s.conns| - 1].events;
  }

  // ----- mutual conformance ------------------------------------------------------------

  function RequestsIn(ps: seq<Packet>): nat {
    if ps == [] then 0 else (if ps[0].op == REQUEST then 1 else 0) + RequestsIn(ps[1..])
  }

  lemma {:induction false} RequestsAreLease(ps: seq<Packet>)
    ensures RequestsIn(ps) == RequestsIn(LeaseOnly(ps))
  {
    if ps != [] {
      RequestsAreLease(ps[1..]);
      LeaseHead(ps);
    }
  }

  /** Requests not yet answered to the client, wherever they are. */
  function Outstanding(v: Server, k: Conn): nat {
    RequestsIn(k.up) + (if v.requestPending then 1 else 0) + (if v.replyPending then 1 else 0) + |k.down|
  }

  lemma JointHasOneRequest(v: Server, k: Conn, history: seq<seq<Byte>>)
    requires Ok(v) && Joint(v, k, history)
    ensures Outstanding(v, k) <= 1 && (!k.reader.client.requestPending ==> Outstanding(v, k) == 0)
  {
    RequestsAreLease(k.up);
    var request := RequestPacket(k.reader.client);
    assert RequestsIn([]) == 0;
    assert RequestsIn([request]) == 1 by { assert [request][1..] == []; }
    if v.leased >= 0 {
      assert RequestsIn([ReleaseOf(v)]) == 0 by { assert [ReleaseOf(v)][1..] == []; }
      assert RequestsIn([ReleaseOf(v), request]) == 1 by { assert [ReleaseOf(v), request][1..] == [request]; }
    }
  }

  predicate NoProtocolError(events: seq<Event>) {
    forall i :: 0 <= i < |events| ==> events[i].kind != ProtocolError
  }

  lemma DeliveryNeverBlames(k: Conn, serving: bool)
    requires DeliveryOk(k, serving) && !k.raw
    ensures NoProtocolError(k.events)
  {
    var n := |k.handled|;
    assert forall i :: 0 <= i < n ==> k.events[i] == EventsOf(k.handled)[i] by {
      if !serving { assert forall i :: 0 <= i < n ==> k.events[i] == k.events[..n][i]; }
    }
  }

  /** Whatever is interleaved with it, and whatever raw peers send on their connections,
      a client using the library and the server never accuse each other of breaking the
      protocol, and the client being served has at most one request outstanding. */
  lemma MutualConformance(steps: seq<Step>, c: nat)
    requires Runs(Init(), steps) && c < |Reached(steps).conns| && !Reached(steps).conns[c].raw
    ensures var s := Reached(steps);
            && NoProtocolError(s.conns[c].events)
            && (forall i :: 0 <= i < |s.conns[c].results| ==> s.conns[c].results[i].code != Protocol)
            && (Serving(s, c) ==> Outstanding(s.server, s.conns[c]) <= 1)
  {
    var s := Reached(steps);
    ReachedIsInvariant(steps);
    ConnFacts(s, c);
    DeliveryNeverBlames(s.conns[c], Serving(s, c));
    if Serving(s, c) { JointHasOneRequest(s.server, s.conns[c], s.history); }
  }

  // ----- input delivery ------------------------------------------------------------------

  function Least(a: nat, b: nat): nat {
    if a < b then a else b
  }

  /** The events delivered so far that belong to connection c: connections follow
      one another, so they are one segment of everything delivered. */
  function DeliveredFor(s: Sys, c: nat): seq<Event>
    requires c < |s.conns|
  {
    var before, n := |AllEvents(s.conns[..c])|, |s.delivered|;
    s.delivered[Least(before, n)..Least(before + |s.conns[c].events|, n)]
  }

  lemma {:induction false} SegmentOfAll(conns: seq<Conn>, c: nat)
    requires c < |conns|
    ensures var before := |AllEvents(conns[..c])|;
            before + |conns[c].events| <= |AllEvents(conns)| &&
            AllEvents(conns)[before..before + |conns[c].events|] == conns[c].events
  {
    var n := |conns| - 1;
    if c < n {
      assert conns[..n][..c] == conns[..c];
      SegmentOfAll(conns[..n], c);
    }
  }

  lemma DeliveredIsPrefix(s: Sys, c: nat)
    requires Inv(s) && c < |s.conns|
    ensures DeliveredFor(s, c) <= s.conns[c].events
    ensures s.server.deferred == [] ==> DeliveredFor(s, c) == s.conns[c].events
  {
    SegmentOfAll(s.conns, c);
    var before := |AllEvents(s.conns[..c])|;
    assert s.delivered <= AllEvents(s.conns);
    assert s.conns[c].events == AllEvents(s.conns)[before..before + |s.conns[c].events|];
  }

  /** Exactly the given number of inputs, in the order sent, then perhaps the one
      event that ends the connection. */
  predicate InOrder(events: seq<Event>, sent: seq<Packet>, taken: nat) {
    && taken <= |sent| && taken <= |events| <= taken + 1
    && events[..taken] == EventsOf(sent[..taken])
    && (|events| > taken ==> IsTerminal(events[taken].kind))
  }

  predicate BlamesOnlyRaw(events: seq<Event>, raw: bool) {
    forall i :: 0 <= i < |events| && events[i].kind == ProtocolError ==> raw
  }

  lemma EventsOfPrefix(ps: seq<Packet>, n: nat)
    requires n <= |ps|
    ensures EventsOf(ps)[..n] == EventsOf(ps[..n])
  {
  }

  lemma HandledInOrder(k: Conn, serving: bool, seen: seq<Event>) returns (taken: nat)
    requires DeliveryOk(k, serving) && seen <= k.events
    ensures InOrder(seen, k.sent, taken)
    ensures |seen| > taken ==> !serving && taken == |k.handled| && seen == k.events
    ensures seen == k.events ==> (|seen| > taken <==> !serving)
  {
    var n := |k.handled|;
    taken := Least(|seen|, n);
    assert k.handled == k.sent[..n] && k.events[..n] == EventsOf(k.handled);
    EventsOfPrefix(k.handled, taken);
    assert k.handled[..taken] == k.sent[..taken];
    assert seen[..taken] == k.events[..n][..taken];
  }

  /** For any peer, library or raw: the events delivered for a connection are its
      well-formed inputs in the order sent, none repeated, none skipped, then perhaps the
      one event that ends it (disconnection, protocol error or overflow) and nothing
      more; an ended connection always gets that event, so an input that never arrives is
      followed by it; and only a raw peer is ever blamed for a protocol error. */
  lemma InputDelivery(steps: seq<Step>, c: nat)
    requires Runs(Init(), steps) && c < |Reached(steps).conns|
    ensures var s := Reached(steps);
            && BlamesOnlyRaw(DeliveredFor(s, c), s.conns[c].raw)
            && (exists taken: nat :: InOrder(DeliveredFor(s, c), s.conns[c].sent, taken))
            && (s.server.deferred == [] && !Serving(s, c) ==>
                  exists taken: nat :: InOrder(DeliveredFor(s, c), s.conns[c].sent, taken) && |DeliveredFor(s, c)| == taken + 1)
  {
    var s := Reached(steps);
    ReachedIsInvariant(steps);
    ConnFacts(s, c);
    DeliveredIsPrefix(s, c);
    if !s.conns[c].raw { DeliveryNeverBlames(s.conns[c], Serving(s, c)); }
    var taken := HandledInOrder(s.conns[c], Serving(s, c), DeliveredFor(s, c));
  }

  /** Nothing is lost while a connection lives: inputs not yet handled are in flight. */
  lemma NothingLostWhileServed(steps: seq<Step>)
    requires Runs(Init(), steps) && Served(Reached(steps))
    ensures var s := Reached(steps);
            var k := s.conns[s.server.client.value];
            k.sent == k.handled + InputsOnly(k.up) && k.events == EventsOf(k.handled)
  {
    ReachedIsInvariant(steps);
    ConnFacts(Reached(steps), Reached(steps).server.client.value);
  }
}
