/** The connection control block of src/tcp.rs: a simplified three-way handshake, a send
    window of at most five bytes fed from a send buffer and cut into segments of at most two
    bytes, and a fixed five-slot receive window that hands bytes on in order.

    The socket and the channels are replaced by sequences: every segment written to the UDP
    socket is appended to `outbox`, every byte sent on `byte_output` to `delivered`, and the
    inputs the event loop waits for arrive as `Event` values. Each place where the source can
    panic ends the operation with `Panicked(site)`; the state is then the one the source has
    reached at that point. Each method is tied to a function on `TcbData` of the same name
    ending in `Spec`; module TcpProperties states what those functions guarantee. */
module Tcp {
  import opened Bytes
  import opened Segment

  const WindowSize: nat := 5
  const MaxPayloadSize: nat := 2

  datatype Option<T> = None | Some(value: T)

  datatype TcbState = Listen | SynSent | SynRecd | Estab | Closed

  /** A socket address: the IP address, kept as its bytes, and the port. */
  datatype SocketAddr = SocketAddr(ip: seq<u8>, port: u16)

  datatype TcpTuple = TcpTuple(src: SocketAddr, dst: SocketAddr)

  datatype TcbInput = SendSyn | Receive(seg: SegmentData) | Send(data: seq<u8>) | Close

  /** What one wait of the event loop yields: an input, a timeout, or a closed channel. */
  datatype Event = Input(input: TcbInput) | TimedOut | Disconnected

  /** The places where the source panics. */
  datatype PanicSite =
    | SeqBelowBase      // the assertion of `send_seg`
    | WindowIndex       // the receive-window index of `handle_payload`
    | DrainPastWindow   // the `drain` of `handle_acks`
    | SeqOverflow       // the `+` of `fill_send_window`
    | AckOverflow       // the `+=` on `ack_base` in `handle_payload`
    | InputClosed       // the `panic!` of `handle_input_recv` on a disconnected channel

  datatype Outcome = Done | Panicked(site: PanicSite)

  /** The fields of a control block, plus what it has written to the socket and the bytes it
      has handed on. */
  datatype TcbData = TcbData(
    tuple: TcpTuple, state: TcbState,
    sendBuffer: seq<u8>, sendWindow: seq<u8>, recvWindow: seq<Option<u8>>,
    seqBase: u32, ackBase: u32, unacked: seq<SegmentData>,
    outbox: seq<SegmentData>, delivered: seq<u8>)

  /** The state after an operation, and whether the operation returned or panicked. */
  datatype Step = Step(d: TcbData, r: Outcome)

  /** What every operation keeps: five receive slots and at most five bytes in flight. */
  predicate WellFormed(d: TcbData) {
    |d.recvWindow| == WindowSize && |d.sendWindow| <= WindowSize
  }

  /** The block `TCB::new` makes: listening, both bases at 1, five empty receive slots and
      nothing queued. */
  function NewTcbData(t: TcpTuple): (d: TcbData)
    ensures WellFormed(d)
  {
    TcbData(t, Listen, [], [], seq(WindowSize, _ => None), 1, 1, [], [], [])
  }

  function Min(a: nat, b: nat): (m: nat)
    ensures m <= a && m <= b && (m == a || m == b)
  {
    if a < b then a else b
  }

  /** `in_wrapped_range((lb, ub), x)`: x lies in the half-open interval from lb up to ub,
      counting modulo 2^32. */
  predicate InWrappedRange(lb: u32, ub: u32, x: u32) {
    Wrap32(x - lb) < Wrap32(ub - lb)
  }

  // ---------------------------------------------------------------------------------------
  // The segments the block builds

  /** How a segment was made: `make_seg`, then setter calls, latest outermost. */
  datatype Recipe =
    | Made
    | SetFlag(prev: Recipe, flag: Flag)
    | SetSeq(prev: Recipe, seqNum: u32)
    | SetAckNum(prev: Recipe, ackNum: u32)
    | SetData(prev: Recipe, data: seq<u8>)

  /** Every `set_data` of the recipe has a payload short enough for its size field. */
  predicate Buildable(rc: Recipe) {
    match rc
    case Made => true
    case SetFlag(p, _) => Buildable(p)
    case SetSeq(p, _) => Buildable(p)
    case SetAckNum(p, _) => Buildable(p)
    case SetData(p, data) => Wrap32(|data|) + 20 < 0x1_0000_0000 && Buildable(p)
  }

  /** The segment a recipe yields: `make_seg` is `Segment::new` between the tuple's ports, and
      each setter does what the methods of class Segment do. */
  function Render(t: TcpTuple, rc: Recipe): SegmentData
    requires Buildable(rc)
  {
    match rc
    case Made => NewData(t.src.port, t.dst.port)
    case SetFlag(p, f) => var s := Render(t, p); Regenerate(s.(flags := FlagSet(s.flags, f)))
    case SetSeq(p, n) => Regenerate(Render(t, p).(seqNum := n))
    case SetAckNum(p, n) => Regenerate(Render(t, p).(ackNum := n))
    case SetData(p, data) => WithData(Render(t, p), data)
  }

  /** The SYN of `send_syn`. */
  function SynSeg(t: TcpTuple, n: u32): SegmentData {
    Render(t, SetSeq(SetFlag(Made, Syn), n))
  }

  /** The SYN+ACK a listening block answers with. */
  function SynAckSeg(t: TcpTuple, n: u32, ack: u32): SegmentData {
    Render(t, SetAckNum(SetSeq(SetFlag(SetFlag(Made, Syn), Ack), n), ack))
  }

  /** A bare acknowledgement. */
  function AckSeg(t: TcpTuple, ack: u32): SegmentData {
    Render(t, SetAckNum(SetFlag(Made, Ack), ack))
  }

  /** A data segment of `send_data`. */
  function DataSeg(t: TcpTuple, n: u32, payload: seq<u8>): SegmentData
    requires |payload| <= MaxPayloadSize
  {
    Render(t, SetData(SetSeq(Made, n), payload))
  }

  // ---------------------------------------------------------------------------------------
  // The operations on field values

  /** `send_seg`: asserts that the segment is not below `seq_base`, writes it and queues it
      for retransmission. */
  function SendSegSpec(d: TcbData, seg: SegmentData): (st: Step)
    ensures st.d == d.(outbox := st.d.outbox, unacked := st.d.unacked)
  {
    if seg.seqNum < d.seqBase then Step(d, Panicked(SeqBelowBase))
    else Step(d.(outbox := d.outbox + [seg], unacked := d.unacked + [seg]), Done)
  }

  /** `send_ack` and `resend_seg`: write the segment, queue nothing. */
  function SendAckSpec(d: TcbData, seg: SegmentData): TcbData {
    d.(outbox := d.outbox + [seg])
  }

  function SendSynSpec(d: TcbData): TcbData {
    var syn := SynSeg(d.tuple, d.seqBase);
    d.(outbox := d.outbox + [syn], unacked := d.unacked + [syn], state := SynSent)
  }

  /** The loop of `send_data`, from the point where `sent` bytes have gone and `data` is
      left. */
  function SendDataSpec(d: TcbData, data: seq<u8>, next: u32, sent: nat): (st: Step)
    ensures st.d == d.(outbox := st.d.outbox, unacked := st.d.unacked)
    decreases |data|
  {
    if data == [] then Step(d, Done)
    else
      var size := Min(MaxPayloadSize, |data|);
      var s := SendSegSpec(d, DataSeg(d.tuple, Wrap32(next + sent), data[..size]));
      if s.r != Done then s else SendDataSpec(s.d, data[size..], next, sent + size)
  }

  /** How many bytes `fill_send_window` moves: as many as are buffered and fit. */
  function FillAmount(d: TcbData): nat
    requires WellFormed(d)
  {
    Min(|d.sendBuffer|, WindowSize - |d.sendWindow|)
  }

  /** The block once those bytes have moved from the buffer to the window. */
  function FillMoved(d: TcbData): TcbData
    requires WellFormed(d)
  {
    var amt := FillAmount(d);
    d.(sendWindow := d.sendWindow + d.sendBuffer[..amt], sendBuffer := d.sendBuffer[amt..])
  }

  /** `fill_send_window`. */
  function FillSpec(d: TcbData): (st: Step)
    requires WellFormed(d)
    ensures WellFormed(st.d)
  {
    if d.state != Estab then Step(d, Done)
    else if d.seqBase + |d.sendWindow| >= 0x1_0000_0000 then Step(FillMoved(d), Panicked(SeqOverflow))
    else SendDataSpec(FillMoved(d), d.sendBuffer[..FillAmount(d)], d.seqBase + |d.sendWindow|, 0)
  }

  /** The number of filled slots. */
  function Filled(w: seq<Option<u8>>): nat {
    if w == [] then 0 else (if w[0].Some? then 1 else 0) + Filled(w[1..])
  }

  lemma {:induction false} FilledAppend(a: seq<Option<u8>>, b: seq<Option<u8>>)
    ensures Filled(a + b) == Filled(a) + Filled(b)
    decreases |a|
  {
    if a == [] {
      assert a + b == b;
    } else {
      assert (a + b)[1..] == a[1..] + b;
      FilledAppend(a[1..], b);
    }
  }

  lemma FilledShift(w: seq<Option<u8>>)
    requires |w| > 0 && w[0].Some?
    ensures Filled(w[1..] + [None]) < Filled(w)
  {
    FilledAppend(w[1..], [None]);
    var tail: seq<Option<u8>> := [None];
    assert tail[1..] == [];
  }

  /** The `for` loop of `handle_payload`, from byte `i` of the payload on. */
  function StoreSpec(d: TcbData, base: nat, p: seq<u8>, i: nat): (st: Step)
    ensures st.d == d.(recvWindow := st.d.recvWindow)
    ensures |st.d.recvWindow| == |d.recvWindow|
    decreases |p| - i
  {
    if i >= |p| then Step(d, Done)
    else if base + i >= |d.recvWindow| then Step(d, Panicked(WindowIndex))
    else StoreSpec(d.(recvWindow := d.recvWindow[base + i := Some(p[i])]), base, p, i + 1)
  }

  /** The `loop` of `handle_payload`: hands on the front slot while it is filled. */
  function DeliverSpec(d: TcbData): (st: Step)
    ensures st.d == d.(delivered := st.d.delivered, ackBase := st.d.ackBase,
                       recvWindow := st.d.recvWindow)
    ensures |st.d.recvWindow| == |d.recvWindow|
    decreases Filled(d.recvWindow)
  {
    var w := d.recvWindow;
    if w == [] || w[0].None? then Step(d, Done)
    else
      var d1 := d.(delivered := d.delivered + [w[0].value]);
      if d.ackBase + 1 >= 0x1_0000_0000 then Step(d1, Panicked(AckOverflow))
      else
        FilledShift(w);
        DeliverSpec(d1.(ackBase := d.ackBase + 1, recvWindow := w[1..] + [None]))
  }

  /** The first half of `handle_payload`: the bytes of a segment that starts inside the
      receive window are written into it. */
  function StoreInWindow(d: TcbData, seg: SegmentData): (st: Step)
    ensures st.d == d.(recvWindow := st.d.recvWindow)
    ensures |st.d.recvWindow| == |d.recvWindow|
  {
    if InWrappedRange(d.ackBase, Wrap32(d.ackBase + WindowSize), seg.seqNum)
    then StoreSpec(d, Wrap32(seg.seqNum - d.ackBase), seg.payload, 0)
    else Step(d, Done)
  }

  /** The second half of `handle_payload`, for an in-order segment: the bytes now at the
      front are handed on and the new `ack_base` is acknowledged. */
  function DeliverAndAck(d: TcbData): (st: Step)
    ensures |st.d.recvWindow| == |d.recvWindow|
  {
    var s := DeliverSpec(d);
    if s.r != Done then s else Step(SendAckSpec(s.d, AckSeg(d.tuple, s.d.ackBase)), Done)
  }

  /** `handle_payload`. */
  function PayloadSpec(d: TcbData, seg: SegmentData): (st: Step)
    requires WellFormed(d)
    ensures WellFormed(st.d)
  {
    if d.state != Estab then Step(d, Done)
    else
      var s := StoreInWindow(d, seg);
      if s.r != Done || seg.seqNum != d.ackBase then s else DeliverAndAck(s.d)
  }

  /** `retain`: the queued segments at or above `ack`, in their order. */
  function KeepUnacked(segs: seq<SegmentData>, ack: u32): (r: seq<SegmentData>)
  {
    if segs == [] then []
    else (if segs[0].seqNum >= ack then [segs[0]] else []) + KeepUnacked(segs[1..], ack)
  }

  /** `handle_acks` once an acknowledgement number inside the acceptable range has
      arrived: the acknowledged segments leave the queue, `seq_base` moves up to `ack`, and
      an established connection drops the acknowledged bytes from the window and refills
      it. */
  function TakeAck(d: TcbData, ack: u32): (st: Step)
    requires WellFormed(d)
    ensures WellFormed(st.d)
  {
    var num := Wrap32(ack - d.seqBase);
    var d1 := d.(unacked := KeepUnacked(d.unacked, ack), seqBase := ack);
    if d.state != Estab then Step(d1, Done)
    else if num > |d.sendWindow| then Step(d1, Panicked(DrainPastWindow))
    else FillSpec(d1.(sendWindow := d.sendWindow[num..]))
  }

  /** `handle_acks`. */
  function AcksSpec(d: TcbData, seg: SegmentData): (st: Step)
    requires WellFormed(d)
    ensures WellFormed(st.d)
  {
    var lb := Wrap32(d.seqBase + 1);
    var ub := Wrap32(lb + WindowSize);
    if HasFlag(seg.flags, Ack) && InWrappedRange(lb, ub, seg.ackNum) then TakeAck(d, seg.ackNum)
    else Step(d, Done)
  }

  /** `handle_shake`. */
  function ShakeSpec(d: TcbData, seg: SegmentData): (st: Step)
    requires WellFormed(d)
    ensures WellFormed(st.d)
  {
    match d.state
    case Listen =>
      if HasFlag(seg.flags, Syn) then
        var d1 := d.(state := SynRecd, ackBase := Wrap32(seg.seqNum + 1));
        SendSegSpec(d1, SynAckSeg(d.tuple, d1.seqBase, d1.ackBase))
      else Step(d, Done)
    case SynSent =>
      if HasFlag(seg.flags, Syn) && HasFlag(seg.flags, Ack) then
        var d1 := d.(state := Estab, ackBase := Wrap32(seg.seqNum + 1));
        FillSpec(SendAckSpec(d1, AckSeg(d.tuple, d1.ackBase)))
      else Step(d, Done)
    case SynRecd =>
      if HasFlag(seg.flags, Ack) then FillSpec(d.(state := Estab)) else Step(d, Done)
    case Estab => Step(d, Done)
    case Closed => Step(d, Done)
  }

  /** `handle_seg`: a FIN closes; otherwise acknowledgements, handshake, then payload. */
  function HandleSegSpec(d: TcbData, seg: SegmentData): (st: Step)
    requires WellFormed(d)
    ensures WellFormed(st.d)
  {
    if HasFlag(seg.flags, Fin) then Step(d.(state := Closed), Done)
    else
      var s1 := AcksSpec(d, seg);
      if s1.r != Done then s1
      else
        var s2 := ShakeSpec(s1.d, seg);
        if s2.r != Done then s2 else PayloadSpec(s2.d, seg)
  }

  /** `handle_timeout`: resend the oldest unacknowledged segment, if any. */
  function TimeoutSpec(d: TcbData): TcbData {
    if d.unacked == [] then d else SendAckSpec(d, d.unacked[0])
  }

  /** `handle_input_recv`. */
  function InputSpec(d: TcbData, e: Event): (st: Step)
    requires WellFormed(d)
    ensures WellFormed(st.d)
  {
    match e
    case TimedOut => Step(TimeoutSpec(d), Done)
    case Disconnected => Step(d, Panicked(InputClosed))
    case Input(i) =>
      match i
      case SendSyn => Step(SendSynSpec(d), Done)
      case Receive(seg) => HandleSegSpec(d, seg)
      case Send(data) => FillSpec(d.(sendBuffer := d.sendBuffer + data))
      case Close => Step(d, Done)
  }

  /** `run_tcp` over a script of events: it stops once the block is closed, the script is
      used up, or an event panics. */
  function RunSpec(d: TcbData, events: seq<Event>): (st: Step)
    requires WellFormed(d)
    ensures WellFormed(st.d)
    decreases |events|
  {
    if d.state == Closed || events == [] then Step(d, Done)
    else
      var s := InputSpec(d, events[0]);
      if s.r != Done then s else RunSpec(s.d, events[1..])
  }

  // ---------------------------------------------------------------------------------------
  // Single steps of the loops and branches above, stated on field values; the methods of
  // class Tcb use them so that their proofs stay small.

  lemma SendDataStep(d: TcbData, data: seq<u8>, next: u32, sent: nat, st: Step)
    requires data != []
    requires st == SendSegSpec(d, DataSeg(d.tuple, Wrap32(next + sent), data[..Min(MaxPayloadSize, |data|)]))
    ensures st.r != Done ==> SendDataSpec(d, data, next, sent) == st
    ensures st.r == Done ==>
              SendDataSpec(d, data, next, sent)
              == SendDataSpec(st.d, data[Min(MaxPayloadSize, |data|)..], next,
                              sent + Min(MaxPayloadSize, |data|))
  {
  }

  lemma TakeAckSteps(d: TcbData, ack: u32)
    requires WellFormed(d)
    ensures var num := Wrap32(ack - d.seqBase);
            var d1 := d.(unacked := KeepUnacked(d.unacked, ack), seqBase := ack);
            TakeAck(d, ack)
            == if d.state != Estab then Step(d1, Done)
               else if num > |d.sendWindow| then Step(d1, Panicked(DrainPastWindow))
               else FillSpec(d1.(sendWindow := d.sendWindow[num..]))
  {
  }

  // The arms of `handle_shake`, one by one; the methods below use them to keep their proofs
  // small.

  lemma ShakeListenStep(d: TcbData, seg: SegmentData)
    requires WellFormed(d) && d.state == Listen && HasFlag(seg.flags, Syn)
    ensures var a := Wrap32(seg.seqNum + 1);
            ShakeSpec(d, seg) == SendSegSpec(d.(state := SynRecd, ackBase := a), SynAckSeg(d.tuple, d.seqBase, a))
  {
  }

  lemma ShakeSynSentStep(d: TcbData, seg: SegmentData)
    requires WellFormed(d) && d.state == SynSent && HasFlag(seg.flags, Syn) && HasFlag(seg.flags, Ack)
    ensures var a := Wrap32(seg.seqNum + 1);
            ShakeSpec(d, seg) == FillSpec(SendAckSpec(d.(state := Estab, ackBase := a), AckSeg(d.tuple, a)))
  {
  }

  lemma ShakeSynRecdStep(d: TcbData, seg: SegmentData)
    requires WellFormed(d) && d.state == SynRecd && HasFlag(seg.flags, Ack)
    ensures ShakeSpec(d, seg) == FillSpec(d.(state := Estab))
  {
  }

  lemma ShakeIdleStep(d: TcbData, seg: SegmentData)
    requires WellFormed(d)
    requires d.state == Listen ==> !HasFlag(seg.flags, Syn)
    requires d.state == SynSent ==> !(HasFlag(seg.flags, Syn) && HasFlag(seg.flags, Ack))
    requires d.state == SynRecd ==> !HasFlag(seg.flags, Ack)
    ensures ShakeSpec(d, seg) == Step(d, Done)
  {
  }

  // ---------------------------------------------------------------------------------------
  // The control block

  class Tcb {
    var tuple: TcpTuple
    var state: TcbState
    var sendBuffer: seq<u8>
    var sendWindow: seq<u8>
    var recvWindow: seq<Option<u8>>
    var seqBase: u32
    var ackBase: u32
    var unackedSegs: seq<SegmentData>
    /** The segments written to the socket, oldest first. */
    var outbox: seq<SegmentData>
    /** The bytes sent on `byte_output`, oldest first. */
    var delivered: seq<u8>

    function Data(): TcbData
      reads this
    {
      TcbData(tuple, state, sendBuffer, sendWindow, recvWindow, seqBase, ackBase, unackedSegs,
              outbox, delivered)
    }

    predicate Valid()
      reads this
    {
      WellFormed(Data())
    }

    /** `TCB::new`. */
    constructor (tuple: TcpTuple)
      ensures Data() == NewTcbData(tuple) && Valid()
    {
      this.tuple := tuple;
      state := Listen;
      sendBuffer, sendWindow, recvWindow := [], [], seq(WindowSize, _ => None);
      seqBase, ackBase := 1, 1;
      unackedSegs, outbox, delivered := [], [], [];
    }

    method ResendSeg(seg: SegmentData)
      modifies this
      ensures Data() == SendAckSpec(old(Data()), seg)
    {
      outbox := outbox + [seg];
    }

    method SendAck(seg: SegmentData)
      modifies this
      ensures Data() == SendAckSpec(old(Data()), seg)
    {
      ResendSeg(seg);
    }

    method SendSeg(seg: SegmentData) returns (r: Outcome)
      modifies this
      ensures Step(Data(), r) == SendSegSpec(old(Data()), seg)
    {
      if seg.seqNum < seqBase {
        return Panicked(SeqBelowBase);
      }
      ResendSeg(seg);
      unackedSegs := unackedSegs + [seg];
      r := Done;
    }

    method SendSyn()
      modifies this
      ensures Data() == SendSynSpec(old(Data()))
    {
      var syn := SynSeg(tuple, seqBase);
      var r := SendSeg(syn);
      state := SynSent;
    }

    method SendData(data: seq<u8>, nextSeq: u32) returns (r: Outcome)
      modifies this
      ensures Step(Data(), r) == SendDataSpec(old(Data()), data, nextSeq, 0)
    {
      ghost var goal := SendDataSpec(Data(), data, nextSeq, 0);
      var sent, bytesToSend, rest := 0, |data|, data;
      while sent < bytesToSend
        invariant sent + |rest| == bytesToSend
        invariant SendDataSpec(Data(), rest, nextSeq, sent) == goal
      {
        ghost var d, rest0 := Data(), rest;
        var size := Min(MaxPayloadSize, |rest|);
        var payload := rest[..size];
        rest := rest[size..];
        var seg := DataSeg(tuple, Wrap32(nextSeq + sent), payload);
        r := SendSeg(seg);
        SendDataStep(d, rest0, nextSeq, sent, Step(Data(), r));
        if r != Done {
          return;
        }
        sent := sent + size;
      }
      r := Done;
    }

    method FillSendWindow() returns (r: Outcome)
      requires Valid()
      modifies this
      ensures Step(Data(), r) == FillSpec(old(Data()))
    {
      if state != Estab {
        return Done;
      }
      ghost var d0 := Data();
      var origWindowLen := |sendWindow|;
      var sendAmt := Min(|sendBuffer|, WindowSize - origWindowLen);
      sendWindow := sendWindow + sendBuffer[..sendAmt];
      var dataToSend := sendBuffer[..sendAmt];
      sendBuffer := sendBuffer[sendAmt..];
      assert Data() == FillMoved(d0);
      if seqBase + origWindowLen >= 0x1_0000_0000 {
        return Panicked(SeqOverflow);
      }
      r := SendData(dataToSend, seqBase + origWindowLen);
    }

    method HandlePayload(seg: SegmentData) returns (r: Outcome)
      requires Valid()
      modifies this
      ensures Step(Data(), r) == PayloadSpec(old(Data()), seg)
    {
      if state != Estab {
        return Done;
      }
      r := StoreSegment(seg);
      if r != Done || seg.seqNum != ackBase {
        return;
      }
      r := DeliverAndAcknowledge();
    }

    /** The first half of `handle_payload`. */
    method StoreSegment(seg: SegmentData) returns (r: Outcome)
      modifies this
      ensures Step(Data(), r) == StoreInWindow(old(Data()), seg)
    {
      var seqLb := ackBase;
      var seqUb := Wrap32(seqLb + WindowSize);
      r := Done;
      if InWrappedRange(seqLb, seqUb, seg.seqNum) {
        var windowIndexBase := Wrap32(seg.seqNum - ackBase);
        r := StorePayload(windowIndexBase, seg.payload);
      }
    }

    /** The second half of `handle_payload`, for an in-order segment. */
    method DeliverAndAcknowledge() returns (r: Outcome)
      modifies this
      ensures Step(Data(), r) == DeliverAndAck(old(Data()))
    {
      r := DeliverInOrder();
      if r != Done {
        return;
      }
      var ack := AckSeg(tuple, ackBase);
      SendAck(ack);
    }

    /** The `for` loop of `handle_payload`: writes byte `i` of the payload into slot
        `base + i`. */
    method StorePayload(base: nat, p: seq<u8>) returns (r: Outcome)
      modifies this
      ensures Step(Data(), r) == StoreSpec(old(Data()), base, p, 0)
    {
      for i := 0 to |p|
        invariant StoreSpec(Data(), base, p, i) == StoreSpec(old(Data()), base, p, 0)
      {
        if base + i >= |recvWindow| {
          return Panicked(WindowIndex);
        }
        ghost var d := Data();
        recvWindow := recvWindow[base + i := Some(p[i])];
        assert Data() == d.(recvWindow := d.recvWindow[base + i := Some(p[i])]);
      }
      r := Done;
    }

    /** The `loop` of `handle_payload`: hands on the front slot while it is filled. */
    method DeliverInOrder() returns (r: Outcome)
      modifies this
      ensures Step(Data(), r) == DeliverSpec(old(Data()))
    {
      while true
        invariant DeliverSpec(Data()) == DeliverSpec(old(Data()))
        decreases Filled(recvWindow)
      {
        if recvWindow == [] || recvWindow[0].None? {
          break;
        }
        ghost var d := Data();
        delivered := delivered + [recvWindow[0].value];
        if ackBase + 1 >= 0x1_0000_0000 {
          assert Data() == d.(delivered := d.delivered + [d.recvWindow[0].value]);
          return Panicked(AckOverflow);
        }
        ackBase := ackBase + 1;
        FilledShift(recvWindow);
        recvWindow := recvWindow[1..] + [None];
        assert Data() == d.(delivered := d.delivered + [d.recvWindow[0].value],
                            ackBase := d.ackBase + 1, recvWindow := d.recvWindow[1..] + [None]);
      }
      r := Done;
    }

    method HandleAcks(seg: SegmentData) returns (r: Outcome)
      requires Valid()
      modifies this
      ensures Step(Data(), r) == AcksSpec(old(Data()), seg)
    {
      var ackLb := Wrap32(seqBase + 1);
      var ackUb := Wrap32(ackLb + WindowSize);
      if HasFlag(seg.flags, Ack) && InWrappedRange(ackLb, ackUb, seg.ackNum) {
        r := TakeAcknowledgement(seg.ackNum);
      } else {
        r := Done;
      }
    }

    /** The body of `handle_acks` for an acceptable acknowledgement number. */
    method TakeAcknowledgement(ack: u32) returns (r: Outcome)
      requires Valid()
      modifies this
      ensures Step(Data(), r) == TakeAck(old(Data()), ack)
    {
      ghost var d0 := Data();
      TakeAckSteps(d0, ack);
      unackedSegs := KeepUnacked(unackedSegs, ack);
      var numAckedBytes := Wrap32(ack - seqBase);
      seqBase := ack;
      ghost var d1 := d0.(unacked := KeepUnacked(d0.unacked, ack), seqBase := ack);
      assert Data() == d1;
      if state != Estab {
        return Done;
      }
      if numAckedBytes > |sendWindow| {
        return Panicked(DrainPastWindow);
      }
      sendWindow := sendWindow[numAckedBytes..];
      assert Data() == d1.(sendWindow := d0.sendWindow[numAckedBytes..]);
      r := FillSendWindow();
    }

    method HandleShake(seg: SegmentData) returns (r: Outcome)
      requires Valid()
      modifies this
      ensures Step(Data(), r) == ShakeSpec(old(Data()), seg)
    {
      r := Done;
      match state
      case Listen =>
        if HasFlag(seg.flags, Syn) {
          r := AnswerSyn(seg);
        }
      case SynSent =>
        if HasFlag(seg.flags, Syn) && HasFlag(seg.flags, Ack) {
          r := AcceptSynAck(seg);
        }
      case SynRecd =>
        if HasFlag(seg.flags, Ack) {
          state := Estab;
          r := FillSendWindow();
        }
      case Estab =>
      case Closed =>
    }

    /** The `Listen` arm of `handle_shake`, for a SYN. */
    method AnswerSyn(seg: SegmentData) returns (r: Outcome)
      requires Valid() && state == Listen && HasFlag(seg.flags, Syn)
      modifies this
      ensures Step(Data(), r) == ShakeSpec(old(Data()), seg)
    {
      ghost var d0 := Data();
      ShakeListenStep(d0, seg);
      state := SynRecd;
      ackBase := Wrap32(seg.seqNum + 1);
      assert Data() == d0.(state := SynRecd, ackBase := Wrap32(seg.seqNum + 1));
      var synack := SynAckSeg(tuple, seqBase, ackBase);
      r := SendSeg(synack);
    }

    /** The `SynSent` arm of `handle_shake`, for a SYN+ACK. */
    method AcceptSynAck(seg: SegmentData) returns (r: Outcome)
      requires Valid() && state == SynSent && HasFlag(seg.flags, Syn) && HasFlag(seg.flags, Ack)
      modifies this
      ensures Step(Data(), r) == ShakeSpec(old(Data()), seg)
    {
      ghost var d0 := Data();
      ShakeSynSentStep(d0, seg);
      state := Estab;
      ackBase := Wrap32(seg.seqNum + 1);
      ghost var d1 := d0.(state := Estab, ackBase := Wrap32(seg.seqNum + 1));
      assert Data() == d1;
      var ack := AckSeg(tuple, ackBase);
      SendAck(ack);
      assert Data() == SendAckSpec(d1, AckSeg(d0.tuple, d1.ackBase));
      r := FillSendWindow();
    }

    method HandleSeg(seg: SegmentData) returns (r: Outcome)
      requires Valid()
      modifies this
      ensures Step(Data(), r) == HandleSegSpec(old(Data()), seg)
    {
      if HasFlag(seg.flags, Fin) {
        state := Closed;
        return Done;
      }
      r := HandleAcks(seg);
      if r != Done {
        return;
      }
      r := HandleShake(seg);
      if r != Done {
        return;
      }
      r := HandlePayload(seg);
    }

    method HandleClose()
      ensures Data() == old(Data())
    {
    }

    method HandleTimeout()
      modifies this
      ensures Data() == TimeoutSpec(old(Data()))
    {
      if unackedSegs != [] {
        ResendSeg(unackedSegs[0]);
      }
    }

    method HandleInputRecv(e: Event) returns (r: Outcome)
      requires Valid()
      modifies this
      ensures Valid()
      ensures Step(Data(), r) == InputSpec(old(Data()), e)
    {
      match e
      case TimedOut =>
        HandleTimeout();
        r := Done;
      case Disconnected =>
        r := Panicked(InputClosed);
      case Input(i) =>
        match i
        case SendSyn =>
          SendSyn();
          r := Done;
        case Receive(seg) =>
          r := HandleSeg(seg);
        case Send(data) =>
          sendBuffer := sendBuffer + data;
          r := FillSendWindow();
        case Close =>
          HandleClose();
          r := Done;
    }

    /** `run_tcp`, fed from a script of events instead of the channel. */
    method RunTcp(events: seq<Event>) returns (r: Outcome)
      requires Valid()
      modifies this
      ensures Valid()
      ensures Step(Data(), r) == RunSpec(old(Data()), events)
    {
      var n := 0;
      while state != Closed && n < |events|
        invariant n <= |events| && Valid()
        invariant RunSpec(Data(), events[n..]) == RunSpec(old(Data()), events)
      {
        assert events[n..][1..] == events[n + 1..];
        r := HandleInputRecv(events[n]);
        if r != Done {
          return;
        }
        n := n + 1;
      }
      r := Done;
    }
  }
}
