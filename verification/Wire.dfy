/** The wire format and frame geometry both halves of the transport agree on. */
module Wire {

  const MAGIC: nat := 0x434c4e31
  const SLOTS: int := 3
  const WIDTH: nat := 640
  const HEIGHT: nat := 360
  const STRIDE: nat := WIDTH * 4
  const FRAME_BYTES: nat := STRIDE * HEIGHT
  const MAX_POLL_MESSAGES: nat := 4096

  const REQUEST: nat := 1
  const RELEASE: nat := 2
  const TAP: nat := 3
  const START: nat := 4
  const STOP: nat := 5
  const FRAME: nat := 6

  type Byte = b: int | 0 <= b < 256

  datatype Packet = Packet(magic: nat, op: nat, value: nat, extra: nat)

  /** How a non-blocking send of one packet ends. */
  datatype Send = Sent | Blocked | Gone | SendError

  datatype Kind = TapInput | StartInput | StopInput | Disconnected | ProtocolError | Overflow

  datatype Event = Event(kind: Kind, lane: nat)

  predicate IsTerminal(kind: Kind) {
    kind == Disconnected || kind == ProtocolError || kind == Overflow
  }

  /** Lease traffic, as opposed to player input. */
  predicate IsLease(p: Packet) {
    p.op == REQUEST || p.op == RELEASE
  }

  predicate IsInput(p: Packet) {
    && p.magic == MAGIC && p.extra == 0
    && ((p.op == TAP && p.value <= 15) || ((p.op == START || p.op == STOP) && p.value == 0))
  }

  function EventOf(p: Packet): Event {
    if p.op == TAP then Event(TapInput, p.value)
    else if p.op == START then Event(StartInput, 0)
    else Event(StopInput, 0)
  }

  function LeaseOnly(ps: seq<Packet>): seq<Packet> {
    if ps == [] then [] else (if IsLease(ps[0]) then [ps[0]] else []) + LeaseOnly(ps[1..])
  }

  function InputsOnly(ps: seq<Packet>): seq<Packet> {
    if ps == [] then [] else (if IsInput(ps[0]) then [ps[0]] else []) + InputsOnly(ps[1..])
  }

  lemma {:induction false} FiltersAppend(ps: seq<Packet>, p: Packet)
    ensures LeaseOnly(ps + [p]) == LeaseOnly(ps) + if IsLease(p) then [p] else []
    ensures InputsOnly(ps + [p]) == InputsOnly(ps) + if IsInput(p) then [p] else []
  {
    if ps != [] {
      assert (ps + [p])[1..] == ps[1..] + [p];
      FiltersAppend(ps[1..], p);
    } else {
      assert (ps + [p])[1..] == [];
    }
  }
}
