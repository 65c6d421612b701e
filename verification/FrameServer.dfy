/** The server object: three frame slots in one shared mapping, lease variables
    updated in place, and the loops of publish and poll. */
module FrameServer {
  import opened Options
  import opened Wire
  import opened ServerRules

  /** The visible frame inside a source image whose rows are sourceStride apart. */
  ghost function Pixels(rgba: seq<Byte>, sourceStride: nat): seq<Byte>
    requires SourceFits(|rgba|, sourceStride)
  {
    seq(FRAME_BYTES, i requires 0 <= i < FRAME_BYTES =>
      RowFits(|rgba|, sourceStride, i / STRIDE); rgba[(i / STRIDE) * sourceStride + i % STRIDE])
  }

  predicate SourceFits(length: nat, sourceStride: nat) {
    sourceStride >= STRIDE && length >= (HEIGHT - 1) * sourceStride + STRIDE
  }

  lemma RowFits(length: nat, sourceStride: nat, y: nat)
    requires SourceFits(length, sourceStride) && y < HEIGHT
    ensures 0 <= y * sourceStride <= y * sourceStride + STRIDE <= length
  {
    var rest := HEIGHT - 1 - y;
    assert rest * sourceStride >= 0;
    assert (HEIGHT - 1) * sourceStride == y * sourceStride + rest * sourceStride;
  }

  lemma RowOfPixels(rgba: seq<Byte>, sourceStride: nat, y: nat)
    requires SourceFits(|rgba|, sourceStride) && y < HEIGHT
    ensures y * sourceStride + STRIDE <= |rgba|
    ensures forall i :: y * STRIDE <= i < (y + 1) * STRIDE ==>
              Pixels(rgba, sourceStride)[i] == rgba[y * sourceStride + i - y * STRIDE]
  {
    RowFits(|rgba|, sourceStride, y);
    forall i | y * STRIDE <= i < (y + 1) * STRIDE
      ensures Pixels(rgba, sourceStride)[i] == rgba[y * sourceStride + i - y * STRIDE]
    {
      assert i / STRIDE == y && i % STRIDE == i - y * STRIDE;
    }
  }

  class FrameServer {
    const mapping: array<Byte>
    const slotSequence: array<nat>
    var client: Option<nat>
    var latestSlot: int
    var leasedSlot: int
    var sequence: nat
    var leasedSequence: nat
    var requestAfter: nat
    var requestPending: bool
    var replyPending: bool
    var reply: Packet
    var deferred: seq<Event>

    ghost function View(): Server
      reads this, slotSequence
    {
      Server(client, latestSlot, leasedSlot, slotSequence[..], sequence, leasedSequence, requestAfter,
             requestPending, replyPending, reply, deferred)
    }

    ghost predicate Valid()
      reads this, slotSequence
    {
      mapping.Length == SLOTS * FRAME_BYTES && Ok(View())
    }

    /** The bytes of one slot. */
    ghost function Slot(slot: int): seq<Byte>
      requires mapping.Length == SLOTS * FRAME_BYTES && 0 <= slot < SLOTS
      reads mapping
    {
      mapping[slot * FRAME_BYTES..(slot + 1) * FRAME_BYTES]
    }

    constructor ()
      ensures Valid() && fresh(mapping) && fresh(slotSequence) && View() == Fresh()
    {
      mapping := new Byte[SLOTS * FRAME_BYTES](_ => 0);
      slotSequence := new nat[SLOTS](_ => 0);
      client, latestSlot, leasedSlot := None, -1, -1;
      sequence, leasedSequence, requestAfter := 0, 0, 0;
      requestPending, replyPending, reply, deferred := false, false, NO_PACKET, [];
    }

    method Disconnect(kind: Kind)
      modifies this
      ensures View() == Drop(old(View()), kind)
    {
      if client.None? { return; }
      client := None;
      leasedSlot := -1;
      leasedSequence := 0;
      requestPending, replyPending := false, false;
      deferred := deferred + [Event(kind, 0)];
    }

    method ReplyIfReady(send: Send)
      requires Valid()
      modifies this
      ensures Valid() && View() == Respond(old(View()), send)
    {
      RespondKeepsOk(View(), send);
      if client.None? { return; }
      if !replyPending && requestPending && latestSlot >= 0 && sequence > requestAfter {
        leasedSlot := latestSlot;
        leasedSequence := slotSequence[leasedSlot];
        reply := Packet(MAGIC, FRAME, leasedSlot, leasedSequence);
        replyPending, requestPending := true, false;
      }
      if !replyPending { return; }
      if send == Sent { replyPending := false; }
      else if send != Blocked { Disconnect(Disconnected); }
    }

    method HandlePacket(packet: Packet)
      requires Valid() && client.Some?
      modifies this
      ensures Valid() && View() == Handle(old(View()), packet)
    {
      HandleKeepsOk(View(), packet);
      if packet.magic != MAGIC { Disconnect(ProtocolError); return; }
      if packet.op == RELEASE {
        if leasedSlot < 0 || replyPending || packet.value != leasedSequence || packet.extra != leasedSlot {
          Disconnect(ProtocolError);
        } else {
          leasedSlot, leasedSequence := -1, 0;
        }
        return;
      }
      if packet.extra != 0 { Disconnect(ProtocolError); return; }
      if packet.op == REQUEST {
        if requestPending || replyPending || leasedSlot >= 0 || packet.value > sequence {
          Disconnect(ProtocolError);
        } else {
          requestPending, requestAfter := true, packet.value;
        }
      } else if packet.op == TAP {
        if packet.value > 15 { Disconnect(ProtocolError); } else { deferred := deferred + [Event(TapInput, packet.value)]; }
      } else if packet.op == START || packet.op == STOP {
        if packet.value != 0 {
          Disconnect(ProtocolError);
        } else {
          deferred := deferred + [Event(if packet.op == START then StartInput else StopInput, 0)];
        }
      } else {
        Disconnect(ProtocolError);
      }
    }

    /** Copies a frame row by row into the slot that is neither leased nor latest,
        numbers it and answers a waiting request.  It never waits for a reader.
        The result is false where the server throws: rows too short for a frame. */
    method Publish(rgba: array<Byte>, sourceStride: nat, send: Send) returns (ok: bool)
      requires Valid() && rgba != mapping
      requires sourceStride >= STRIDE ==> SourceFits(rgba.Length, sourceStride)
      modifies this, mapping, slotSequence
      ensures Valid() && (ok <==> sourceStride >= STRIDE)
      ensures !ok ==> View() == old(View()) && mapping[..] == old(mapping[..])
      ensures ok ==> View() == Respond(Published(old(View())), send)
      ensures ok ==> Slot(PublishSlot(old(latestSlot), old(leasedSlot))) == Pixels(old(rgba[..]), sourceStride)
      ensures ok ==> forall k :: 0 <= k < SLOTS && k != PublishSlot(old(latestSlot), old(leasedSlot)) ==> Slot(k) == old(Slot(k))
    {
      if sourceStride < STRIDE { return false; }
      PublishedKeepsOk(View());
      ghost var published := Published(View());
      var slot := PickSlot();
      CopyRows(rgba, sourceStride, slot);
      latestSlot := slot;
      sequence := sequence + 1;
      slotSequence[slot] := sequence;
      assert View() == published;
      ReplyIfReady(send);
      ok := true;
    }

    method PickSlot() returns (slot: int)
      requires Valid()
      ensures slot == PublishSlot(latestSlot, leasedSlot)
    {
      slot := (latestSlot + 1) % SLOTS;
      if slot == leasedSlot { slot := (slot + 1) % SLOTS; }
    }

    /** One row, memcpy fashion. */
    method CopyRow(rgba: array<Byte>, from: nat, to: nat)
      requires from + STRIDE <= rgba.Length && to + STRIDE <= mapping.Length && rgba != mapping
      modifies mapping
      ensures forall i :: 0 <= i < mapping.Length ==>
                mapping[i] == if to <= i < to + STRIDE then rgba[from + i - to] else old(mapping[i])
    {
      forall x | 0 <= x < STRIDE {
        mapping[to + x] := rgba[from + x];
      }
      assert forall i :: to <= i < to + STRIDE ==> mapping[i] == mapping[to + (i - to)];
    }

    method CopyRows(rgba: array<Byte>, sourceStride: nat, slot: int)
      requires mapping.Length == SLOTS * FRAME_BYTES && 0 <= slot < SLOTS && rgba != mapping
      requires SourceFits(rgba.Length, sourceStride)
      modifies mapping
      ensures Slot(slot) == Pixels(old(rgba[..]), sourceStride)
      ensures forall k :: 0 <= k < SLOTS && k != slot ==> Slot(k) == old(Slot(k))
    {
      var destination := slot * FRAME_BYTES;
      ghost var frame := Pixels(rgba[..], sourceStride);
      for y := 0 to HEIGHT
        invariant forall i :: 0 <= i < y * STRIDE ==> mapping[destination + i] == frame[i]
        invariant forall i :: 0 <= i < mapping.Length && !(destination <= i < destination + y * STRIDE) ==>
                    mapping[i] == old(mapping[i])
      {
        RowFits(rgba.Length, sourceStride, y);
        RowOfPixels(rgba[..], sourceStride, y);
        CopyRow(rgba, y * sourceStride, destination + y * STRIDE);
      }
      forall k | 0 <= k < SLOTS && k != slot
        ensures Slot(k) == old(Slot(k))
      {
        assert forall i :: k * FRAME_BYTES <= i < (k + 1) * FRAME_BYTES ==> mapping[i] == old(mapping[i]);
      }
    }

    method AcceptPending(tries: seq<Accept>) returns (threw: bool)
      requires Valid()
      modifies this`client
      ensures Valid() && (View(), threw) == AcceptClients(old(View()), tries)
    {
      AcceptKeepsOk(View(), tries, 0);
      var n := 0;
      while n < 8 && n < |tries|
        invariant n <= 8 && AcceptClients(View(), tries, n) == AcceptClients(old(View()), tries, 0)
        decreases 8 - n
      {
        if tries[n].NobodyWaiting? { return false; }
        if tries[n].AcceptFailed? { return true; }
        if tries[n].Incoming? && client.None? && tries[n].welcomed {
          client := Some(tries[n].conn);
        }
        n := n + 1;
      }
      threw := false;
    }

    method ReceiveAll(answers: seq<Recv>, maxMessages: nat) returns (received: nat)
      requires Valid()
      modifies this
      ensures Valid() && (View(), received) == Drain(old(View()), answers, maxMessages, 0, 0)
    {
      received := 0;
      var i := 0;
      while client.Some? && received < maxMessages && i < |answers|
        invariant Valid() && i <= |answers| && received <= maxMessages
        invariant Drain(View(), answers, maxMessages, i, received) == Drain(old(View()), answers, maxMessages, 0, 0)
        decreases |answers| - i
      {
        var answer := answers[i];
        i := i + 1;
        DropKeepsOk(View(), ProtocolError);
        DropKeepsOk(View(), Disconnected);
        if answer.RecvInterrupted? { continue; }
        if answer.NothingYet? { return; }
        if answer.RecvFailed? || answer.Closed? { Disconnect(Disconnected); return; }
        received := received + 1;
        if answer.WrongSize? { Disconnect(ProtocolError); return; }
        HandlePacket(answer.packet);
      }
    }

    /** One poll.  Events come out in arrival order; accepted is false where the
        source throws, and then nothing is delivered and nothing received. */
    method Poll(tries: seq<Accept>, answers: seq<Recv>, maxMessages: nat, more: bool, send: Send)
      returns (accepted: bool, delivered: seq<Event>)
      requires Valid()
      modifies this
      ensures Valid()
      ensures maxMessages == 0 || maxMessages > MAX_POLL_MESSAGES ==> !accepted && View() == old(View()) && delivered == []
      ensures 0 < maxMessages <= MAX_POLL_MESSAGES ==>
                var op := Op.Poll(tries, answers, maxMessages, more, send);
                View() == Operate(old(View()), op) &&
                (accepted <==> !AcceptClients(old(View()), tries).1) &&
                delivered == if accepted then Loaded(old(View()), op).deferred else []
    {
      if maxMessages == 0 || maxMessages > MAX_POLL_MESSAGES { return false, []; }
      var threw := AcceptPending(tries);
      if threw { return false, []; }
      var received := ReceiveAll(answers, maxMessages);
      if client.Some? && received == maxMessages && more {
        DropKeepsOk(View(), Overflow);
        Disconnect(Overflow);
      }
      ReplyIfReady(send);
      delivered := deferred;
      deferred := [];
      accepted := true;
    }
  }
}
