/** The client object.  Its read call keeps the client library's nested retry loops; for
    every complete list of environment answers it does what ClientRules says. */
module FrameClient {
  import opened Options
  import opened Wire
  import opened ClientRules

  class FrameClient {
    var lastSequence: nat
    var requestPending: bool
    var releasePending: bool
    var releasePacket: Packet

    ghost function View(): Client
      reads this
    {
      Client(lastSequence, requestPending, releasePending, releasePacket)
    }

    constructor ()
      ensures View() == CONNECTED
    {
      lastSequence, requestPending, releasePending, releasePacket := 0, false, false, Packet(0, 0, 0, 0);
    }

    /** send_until: retries a blocked send each time the socket becomes writable.
        It returns Success with the send done, or the code the call fails with. */
    method SendUntil(ghost sending: Pc, answers: seq<Answer>, start: nat) returns (code: Result, i: nat)
      requires sending == SendRelease || sending == SendRequest
      requires start <= |answers| && Completes(Reader(View(), sending), answers, start)
      ensures start < i <= |answers|
      ensures code == Success ==> var r := AfterSend(Reader(View(), sending), Sent);
                Completes(r, answers, i) && Finish(Reader(View(), sending), answers, start) == Finish(r, answers, i)
      ensures code != Success ==> Finish(Reader(View(), sending), answers, start) == Reader(View(), Fail(code))
    {
      i := start;
      while true
        invariant start <= i <= |answers| && Completes(Reader(View(), sending), answers, i)
        invariant Finish(Reader(View(), sending), answers, start) == Finish(Reader(View(), sending), answers, i)
        decreases |answers| - i
      {
        var result := answers[i].send;
        i := i + 1;
        if result == Sent { return Success, i; }
        if result != Blocked { return SendFailure(result), i; }
        ghost var waiting := AfterSend(Reader(View(), sending), Blocked);
        assert Completes(waiting, answers, i);
        assert Finish(Reader(View(), sending), answers, start) == Finish(waiting, answers, i);
        var ready := answers[i].wait;
        i := i + 1;
        assert Completes(AfterWait(waiting, ready), answers, i);
        assert Finish(waiting, answers, i - 1) == Finish(AfterWait(waiting, ready), answers, i);
        if ready != Ready { return WaitFailure(ready), i; }
      }
    }

    /** cl_read_frame.  The buffer is the caller's; a call that is not refused for
        its arguments does exactly what the step function does on these answers. */
    method ReadFrame(rgba: array<Byte>, timeoutMs: int, answers: seq<Answer>) returns (code: Result, sequence: nat)
      requires rgba.Length >= FRAME_BYTES && timeoutMs >= 0 ==> Completes(Call(View()), answers, 0)
      modifies this, rgba
      ensures rgba.Length < FRAME_BYTES || timeoutMs < 0 ==>
                code == BadArgument && View() == old(View()) && rgba[..] == old(rgba[..])
      ensures rgba.Length >= FRAME_BYTES && timeoutMs >= 0 ==>
                ReadsExactly(old(View()), answers, View(), code, sequence, rgba[..FRAME_BYTES])
      ensures rgba.Length >= FRAME_BYTES && timeoutMs >= 0 ==>
                var done := Finish(Call(old(View())), answers);
                View() == done.client && code == done.pc.code &&
                (code == Success ==> sequence == done.pc.returned && rgba[..FRAME_BYTES] == done.pc.pixels)
    {
      sequence := 0;
      if rgba.Length < FRAME_BYTES || timeoutMs < 0 { return BadArgument, 0; }
      ghost var done := Finish(Call(View()), answers);
      CallReadsExactly(View(), answers);
      var i := 0;
      if releasePending {
        code, i := SendUntil(SendRelease, answers, i);
        if code != Success { return; }
        releasePending := false;
      }
      assert Completes(Reader(View(), AfterRelease(View())), answers, i);
      assert Finish(Reader(View(), AfterRelease(View())), answers, i) == done;
      if !requestPending {
        code, i := SendUntil(SendRequest, answers, i);
        if code != Success { return; }
        requestPending := true;
      }
      code, sequence := AwaitFrame(rgba, answers, i);
    }

    /** cl_tap: refused for a lane outside A to P, else one attempt to send a packet
        the server accepts; lease variables are untouched. */
    method TapLane(lane: nat, send: Send) returns (code: Result, offered: Option<Packet>)
      ensures lane > 15 <==> offered.None?
      ensures lane > 15 ==> code == BadArgument
      ensures offered.Some? ==> IsInput(offered.value) && EventOf(offered.value) == Event(TapInput, lane) && Reports(send, code)
    {
      if lane > 15 { return BadArgument, None; }
      return OneSend(send), Some(Packet(MAGIC, TAP, lane, 0));
    }

    /** cl_start and cl_stop. */
    method Control(starting: bool, send: Send) returns (code: Result, offered: Packet)
      ensures IsInput(offered) && EventOf(offered) == Event(if starting then StartInput else StopInput, 0)
      ensures Reports(send, code)
    {
      return OneSend(send), Packet(MAGIC, if starting then START else STOP, 0, 0);
    }

    /** The reply loop: wait, receive, check, copy byte by byte, release. */
    method AwaitFrame(rgba: array<Byte>, answers: seq<Answer>, start: nat) returns (code: Result, sequence: nat)
      requires rgba.Length >= FRAME_BYTES
      requires start <= |answers| && Completes(Reader(View(), WaitReply), answers, start)
      modifies this, rgba
      ensures var done := Finish(Reader(old(View()), WaitReply), answers, start);
              View() == done.client && code == done.pc.code &&
              (code == Success ==> sequence == done.pc.returned && rgba[..FRAME_BYTES] == done.pc.pixels)
    {
      ghost var done := Finish(Reader(View(), WaitReply), answers, start);
      var i := start;
      sequence := 0;
      while true
        invariant start <= i <= |answers| && View() == old(View())
        invariant Completes(Reader(View(), WaitReply), answers, i)
        invariant Finish(Reader(View(), WaitReply), answers, i) == done
        decreases |answers| - i
      {
        var ready := answers[i].wait;
        ghost var waited := AfterWait(Reader(View(), WaitReply), ready);
        assert Completes(waited, answers, i + 1) && Finish(waited, answers, i + 1) == done;
        i := i + 1;
        if ready != Ready { return WaitFailure(ready), 0; }
        var received := answers[i].receive;
        ghost var got := AfterReceive(waited, received);
        assert Completes(got, answers, i + 1) && Finish(got, answers, i + 1) == done;
        i := i + 1;
        if received.Again? { continue; }
        if received.EndOfFile? { return Lost, 0; }
        if received.ReceiveError? { return SystemError, 0; }
        var packet := received.packet;
        if !received.whole || packet.magic != MAGIC || packet.op != FRAME || packet.value >= SLOTS || packet.extra <= lastSequence {
          return Protocol, 0;
        }
        i := CopyFrame(rgba, packet, answers, i);
        sequence := packet.extra;
        var release := answers[i].send;
        assert Completes(AfterSend(Reader(View(), FinalRelease(sequence, rgba[..FRAME_BYTES])), release), answers, i + 1);
        if release == Sent { releasePending := false; }
        else if release != Blocked { return SendFailure(release), 0; }
        return Success, sequence;
      }
    }

    /** memcpy from the shared slot, one byte after another, then the bookkeeping. */
    method CopyFrame(rgba: array<Byte>, packet: Packet, answers: seq<Answer>, start: nat) returns (i: nat)
      requires rgba.Length >= FRAME_BYTES && start <= |answers|
      requires Completes(Reader(View(), Copying(packet.value, packet.extra, [])), answers, start)
      modifies this, rgba
      ensures start <= i <= |answers|
      ensures View() == Client(packet.extra, false, true, Packet(MAGIC, RELEASE, packet.extra, packet.value))
      ensures var r := Reader(View(), FinalRelease(packet.extra, rgba[..FRAME_BYTES]));
              Completes(r, answers, i) &&
              Finish(Reader(old(View()), Copying(packet.value, packet.extra, [])), answers, start) == Finish(r, answers, i)
    {
      ghost var begun := Reader(View(), Copying(packet.value, packet.extra, []));
      i := start;
      var n := 0;
      assert rgba[..0] == [];
      while n < FRAME_BYTES
        invariant n <= FRAME_BYTES && start <= i <= |answers| && View() == old(View())
        invariant var r := CopyState(View(), packet, rgba[..n]);
                  Completes(r, answers, i) && Finish(begun, answers, start) == Finish(r, answers, i)
      {
        rgba[n] := answers[i].byte;
        assert rgba[..n + 1] == rgba[..n] + [answers[i].byte];
        n := n + 1;
        i := i + 1;
      }
      lastSequence, requestPending := packet.extra, false;
      releasePacket := Packet(MAGIC, RELEASE, packet.extra, packet.value);
      releasePending := true;
    }
  }

  /** What one attempt to send reports: done, try later, peer gone, or failed. */
  predicate Reports(send: Send, code: Result) {
    && (code == Success <==> send == Sent) && (code == WouldBlock <==> send == Blocked)
    && (code == Lost <==> send == Gone) && (code == SystemError <==> send == SendError)
  }

  function OneSend(send: Send): Result {
    match send
    case Sent => Success
    case Blocked => WouldBlock
    case _ => SendFailure(send)
  }

  function CopyState(c: Client, packet: Packet, copied: seq<Byte>): Reader {
    if |copied| < FRAME_BYTES then Reader(c, Copying(packet.value, packet.extra, copied))
    else Reader(Client(packet.extra, false, true, Packet(MAGIC, RELEASE, packet.extra, packet.value)),
                FinalRelease(packet.extra, copied))
  }
}
