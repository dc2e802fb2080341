/** The earlier control block of src/tcp/mod.rs: the same handshake as module Tcp without
    payload or acknowledgement handling. It differs from the later block in four ways: its
    `+ 1` on the peer's sequence number does not wrap (a debug build panics on overflow), the
    SynSent branch asserts that the peer acknowledges `seq_base + 1`, a block entering Estab
    does not fill its send window, and `run_tcp(true)` only queues its SYN, without writing it
    or leaving Listen.

    The segments are those of module Tcp (the same `make_seg` and setters); the socket is the
    `outbox` sequence, and the segments the loop of `run_tcp` waits for arrive as a sequence,
    whose end stands for the channel closing. */
module TcpDraft {
  import opened Bytes
  import opened Segment
  import Tcp

  /** The places where the draft panics. */
  datatype PanicSite =
    | SeqBelowBase   // the assertion of `send_seg`
    | AckOverflow    // the `+ 1` on the peer's sequence number in `handle_shake`
    | SeqOverflow    // the `+ 1` on `seq_base` inside `assert_eq!`
    | AckMismatch    // the `assert_eq!` itself
    | InputClosed    // the `unwrap` of `recv` in `run_tcp` once every sender is gone

  datatype Outcome = Done | Panicked(site: PanicSite)

  datatype DraftData = DraftData(
    tuple: Tcp.TcpTuple, state: Tcp.TcbState,
    sendBuffer: seq<u8>, sendWindow: seq<u8>,
    seqBase: u32, ackBase: u32, unacked: seq<SegmentData>,
    outbox: seq<SegmentData>)

  datatype Step = Step(d: DraftData, r: Outcome)

  /** The state after `fill_window` and the bytes it returns. */
  datatype Filled = Filled(d: DraftData, sent: seq<u8>)

  /** `WINDOW_SIZE - window.len()` does not underflow. */
  predicate WellFormed(d: DraftData) {
    |d.sendWindow| <= Tcp.WindowSize
  }

  /** `TCB::new`: listening, both bases at 1, nothing buffered or queued. */
  function NewDraftData(t: Tcp.TcpTuple): (d: DraftData)
    ensures WellFormed(d)
  {
    DraftData(t, Tcp.Listen, [], [], 1, 1, [], [])
  }

  /** `fill_window`: the front of the buffer, as much as fits, moves to the back of the window
      and is returned. */
  function FillWindowSpec(d: DraftData): (f: Filled)
    requires WellFormed(d)
    ensures f.sent + f.d.sendBuffer == d.sendBuffer
    ensures f.d.sendWindow == d.sendWindow + f.sent
    ensures |f.d.sendWindow| <= Tcp.WindowSize
    ensures |f.d.sendWindow| == Tcp.WindowSize || f.d.sendBuffer == []
    ensures f.d == d.(sendWindow := f.d.sendWindow, sendBuffer := f.d.sendBuffer)
  {
    var amt := Tcp.Min(|d.sendBuffer|, Tcp.WindowSize - |d.sendWindow|);
    assert d.sendBuffer[..amt] + d.sendBuffer[amt..] == d.sendBuffer;
    Filled(d.(sendWindow := d.sendWindow + d.sendBuffer[..amt], sendBuffer := d.sendBuffer[amt..]),
           d.sendBuffer[..amt])
  }

  /** `send_seg`: asserts that the segment is not below `seq_base`, writes it and queues it. */
  function SendSegSpec(d: DraftData, seg: SegmentData): (st: Step)
  {
    if seg.seqNum < d.seqBase then Step(d, Panicked(SeqBelowBase))
    else Step(d.(outbox := d.outbox + [seg], unacked := d.unacked + [seg]), Done)
  }

  /** `handle_shake`. */
  function ShakeSpec(d: DraftData, seg: SegmentData): (st: Step)
    ensures st.d.tuple == d.tuple && st.d.seqBase == d.seqBase
    ensures st.d.sendBuffer == d.sendBuffer && st.d.sendWindow == d.sendWindow
    ensures st.d.state == Tcp.Closed <==> d.state == Tcp.Closed
  {
    match d.state
    case Listen =>
      if HasFlag(seg.flags, Syn) then
        var d1 := d.(state := Tcp.SynRecd);
        if seg.seqNum + 1 >= 0x1_0000_0000 then Step(d1, Panicked(AckOverflow))
        else
          var d2 := d1.(ackBase := seg.seqNum + 1);
          SendSegSpec(d2, Tcp.SynAckSeg(d.tuple, d2.seqBase, d2.ackBase))
      else Step(d, Done)
    case SynSent =>
      if HasFlag(seg.flags, Syn) && HasFlag(seg.flags, Ack) then
        var d1 := d.(state := Tcp.Estab);
        if seg.seqNum + 1 >= 0x1_0000_0000 then Step(d1, Panicked(AckOverflow))
        else
          var d2 := d1.(ackBase := seg.seqNum + 1);
          if d.seqBase + 1 >= 0x1_0000_0000 then Step(d2, Panicked(SeqOverflow))
          else if seg.ackNum != d.seqBase + 1 then Step(d2, Panicked(AckMismatch))
          else Step(d2.(outbox := d2.outbox + [Tcp.AckSeg(d.tuple, d2.ackBase)]), Done)
      else Step(d, Done)
    case SynRecd =>
      if HasFlag(seg.flags, Ack) then Step(d.(state := Tcp.Estab), Done) else Step(d, Done)
    case Estab => Step(d, Done)
    case Closed => Step(d, Done)
  }

  /** The `while` loop of `run_tcp`: one segment through `handle_shake` at a time until the
      block is closed. */
  function LoopSpec(d: DraftData, segs: seq<SegmentData>): (st: Step)
    decreases |segs|
  {
    if d.state == Tcp.Closed then Step(d, Done)
    else if segs == [] then Step(d, Panicked(InputClosed))
    else
      var s := ShakeSpec(d, segs[0]);
      if s.r != Done then s else LoopSpec(s.d, segs[1..])
  }

  /** The SYN `run_tcp(true)` queues. */
  function QueueSynSpec(d: DraftData): DraftData {
    d.(unacked := d.unacked + [Tcp.SynSeg(d.tuple, d.seqBase)])
  }

  /** `run_tcp`. */
  function RunSpec(d: DraftData, sendSyn: bool, segs: seq<SegmentData>): Step {
    LoopSpec(if sendSyn then QueueSynSpec(d) else d, segs)
  }

  // ---------------------------------------------------------------------------------------
  // The control block

  class DraftTcb {
    var tuple: Tcp.TcpTuple
    var state: Tcp.TcbState
    var sendBuffer: seq<u8>
    var sendWindow: seq<u8>
    var seqBase: u32
    var ackBase: u32
    var unackedSegs: seq<SegmentData>
    /** The segments written to the socket, oldest first. */
    var outbox: seq<SegmentData>

    function Data(): DraftData
      reads this
    {
      DraftData(tuple, state, sendBuffer, sendWindow, seqBase, ackBase, unackedSegs, outbox)
    }

    predicate Valid()
      reads this
    {
      WellFormed(Data())
    }

    /** `TCB::new`. */
    constructor (tuple: Tcp.TcpTuple)
      ensures Data() == NewDraftData(tuple) && Valid()
    {
      this.tuple := tuple;
      state := Tcp.Listen;
      sendBuffer, sendWindow := [], [];
      seqBase, ackBase := 1, 1;
      unackedSegs, outbox := [], [];
    }

    method FillWindow() returns (dataToSend: seq<u8>)
      requires Valid()
      modifies this
      ensures Filled(Data(), dataToSend) == FillWindowSpec(old(Data())) && Valid()
    {
      ghost var d0 := Data();
      var fillAmt := Tcp.Min(|sendBuffer|, Tcp.WindowSize - |sendWindow|);
      dataToSend := [];
      sendWindow := sendWindow + sendBuffer[..fillAmt];
      for i := 0 to fillAmt
        invariant dataToSend == d0.sendBuffer[..i]
        invariant Data() == d0.(sendWindow := d0.sendWindow + d0.sendBuffer[..fillAmt],
                                sendBuffer := d0.sendBuffer[i..])
      {
        dataToSend := dataToSend + [sendBuffer[0]];
        sendBuffer := sendBuffer[1..];
      }
    }

    method SendSeg(seg: SegmentData) returns (r: Outcome)
      modifies this
      ensures Step(Data(), r) == SendSegSpec(old(Data()), seg)
    {
      if seg.seqNum < seqBase {
        return Panicked(SeqBelowBase);
      }
      outbox := outbox + [seg];
      unackedSegs := unackedSegs + [seg];
      r := Done;
    }

    method SendAck(seg: SegmentData)
      modifies this
      ensures Data() == old(Data()).(outbox := old(outbox) + [seg])
    {
      outbox := outbox + [seg];
    }

    method HandleShake(seg: SegmentData) returns (r: Outcome)
      modifies this
      ensures Step(Data(), r) == ShakeSpec(old(Data()), seg)
    {
      r := Done;
      match state
      case Listen =>
        if HasFlag(seg.flags, Syn) {
          state := Tcp.SynRecd;
          if seg.seqNum + 1 >= 0x1_0000_0000 {
            return Panicked(AckOverflow);
          }
          ackBase := seg.seqNum + 1;
          var synack := Tcp.SynAckSeg(tuple, seqBase, ackBase);
          r := SendSeg(synack);
        }
      case SynSent =>
        if HasFlag(seg.flags, Syn) && HasFlag(seg.flags, Ack) {
          state := Tcp.Estab;
          if seg.seqNum + 1 >= 0x1_0000_0000 {
            return Panicked(AckOverflow);
          }
          ackBase := seg.seqNum + 1;
          if seqBase + 1 >= 0x1_0000_0000 {
            return Panicked(SeqOverflow);
          }
          if seg.ackNum != seqBase + 1 {
            return Panicked(AckMismatch);
          }
          var ack := Tcp.AckSeg(tuple, ackBase);
          SendAck(ack);
        }
      case SynRecd =>
        if HasFlag(seg.flags, Ack) {
          state := Tcp.Estab;
        }
      case Estab =>
      case Closed =>
    }

    method RunTcp(sendSyn: bool, segs: seq<SegmentData>) returns (r: Outcome)
      modifies this
      ensures Step(Data(), r) == RunSpec(old(Data()), sendSyn, segs)
    {
      if sendSyn {
        var syn := Tcp.SynSeg(tuple, seqBase);
        unackedSegs := unackedSegs + [syn];
      }
      ghost var goal := LoopSpec(Data(), segs);
      var i := 0;
      while state != Tcp.Closed
        invariant i <= |segs|
        invariant LoopSpec(Data(), segs[i..]) == goal
        decreases |segs| - i
      {
        if i == |segs| {
          return Panicked(InputClosed);
        }
        var seg := segs[i];
        assert segs[i..][1..] == segs[i + 1..];
        i := i + 1;
        r := HandleShake(seg);
        if r != Done {
          return;
        }
      }
      r := Done;
    }
  }
}
