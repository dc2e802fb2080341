/** What the control block of module Tcp guarantees, stated on the functions its methods are
    proved against: the shape of every segment it builds, the window arithmetic, the closed
    forms of its loops, the handshake transitions, and the two scenarios of the unit tests of
    src/tcp.rs. */
module TcpProperties {
  import opened Bits
  import opened Bytes
  import opened Segment
  import opened Tcp

  // ---------------------------------------------------------------------------------------
  // The segments the block builds

  /** Whatever setters are applied after `make_seg`, the segment carries the tuple's ports, a
      size of at least the header's, and the checksum generated from its other fields. */
  lemma {:induction false} RenderSized(t: TcpTuple, rc: Recipe)
    requires Buildable(rc)
    ensures var s := Render(t, rc);
            && s.srcPort == t.src.port && s.dstPort == t.dst.port && s.segSize >= 20
            && s.checksum == GeneratedChecksum(s)
    decreases rc
  {
    match rc
    case Made =>
      Regenerated(SegmentData(t.src.port, t.dst.port, 20, 0, 0, 0, 0, []));
    case SetFlag(p, f) =>
      RenderSized(t, p);
      var s := Render(t, p);
      Regenerated(s.(flags := FlagSet(s.flags, f)));
    case SetSeq(p, n) =>
      RenderSized(t, p);
      Regenerated(Render(t, p).(seqNum := n));
    case SetAckNum(p, n) =>
      RenderSized(t, p);
      Regenerated(Render(t, p).(ackNum := n));
    case SetData(p, data) =>
      RenderSized(t, p);
      Regenerated(Render(t, p).(segSize := 20 + Wrap32(|data|), payload := data));
  }

  lemma Regenerated(s: SegmentData)
    ensures var r := Regenerate(s);
            && r == s.(checksum := r.checksum)
            && r.checksum == GeneratedChecksum(r)
  {
    GeneratedIgnoresChecksum(s, GeneratedChecksum(s));
  }

  /** Every segment the block builds validates. */
  lemma RenderValid(t: TcpTuple, rc: Recipe)
    requires Buildable(rc)
    ensures IsValid(Render(t, rc))
  {
    var s := Render(t, rc);
    RenderSized(t, rc);
    assert Regenerate(s) == s;
    SizedSegmentValid(s);
  }

  /** No flag is set on a fresh segment. */
  lemma NoFlags(f: Flag)
    ensures !HasFlag(0, f)
  {
    NoHighBit(0, 0, FlagBit(f));
  }

  /** Setting one flag on a fresh segment sets that flag and no other. */
  lemma OneFlag(w: u16, f: Flag, g: Flag, h: Flag)
    requires w == FlagSet(0, f) && f != g && f != h
    ensures HasFlag(w, f) && !HasFlag(w, g) && !HasFlag(w, h)
  {
    NoFlags(g);
    NoFlags(h);
    FlagSetOnlyOne(0, f, g);
    FlagSetOnlyOne(0, f, h);
  }

  /** Setting SYN and then ACK on a fresh segment sets those two and not FIN. */
  lemma SynAckFlags(w: u16)
    requires w == FlagSet(FlagSet(0, Syn), Ack)
    ensures HasFlag(w, Syn) && HasFlag(w, Ack) && !HasFlag(w, Fin)
  {
    var f := FlagSet(0, Syn);
    OneFlag(f, Syn, Ack, Fin);
    FlagSetOnlyOne(f, Ack, Syn);
    FlagSetOnlyOne(f, Ack, Fin);
  }

  lemma SynSegWord(t: TcpTuple, n: u32)
    ensures SynSeg(t, n).flags == FlagSet(0, Syn)
  {
    var s0 := Render(t, Made);
    assert s0.flags == 0;
    assert Render(t, SetFlag(Made, Syn)).flags == FlagSet(s0.flags, Syn);
  }

  lemma SynAckSegWord(t: TcpTuple, n: u32, ack: u32)
    ensures SynAckSeg(t, n, ack).flags == FlagSet(FlagSet(0, Syn), Ack)
  {
    var r1 := SetFlag(Made, Syn);
    var r2 := SetFlag(r1, Ack);
    var s0 := Render(t, Made);
    assert s0.flags == 0;
    var w1 := Render(t, r1).flags;
    assert w1 == FlagSet(s0.flags, Syn);
    var w2 := Render(t, r2).flags;
    assert w2 == FlagSet(w1, Ack);
    assert Render(t, SetSeq(r2, n)).flags == w2;
  }

  lemma AckSegWord(t: TcpTuple, ack: u32)
    ensures AckSeg(t, ack).flags == FlagSet(0, Ack)
  {
    var s0 := Render(t, Made);
    assert s0.flags == 0;
    assert Render(t, SetFlag(Made, Ack)).flags == FlagSet(s0.flags, Ack);
  }

  /** The SYN of `send_syn` (flags in SynSegFlags): SYN alone, sequence number `n`, no acknowledgement number and no
      payload. */
  lemma SynSegShape(t: TcpTuple, n: u32)
    ensures var s := SynSeg(t, n);
            && s.srcPort == t.src.port && s.dstPort == t.dst.port
            && s.seqNum == n && s.ackNum == 0 && s.segSize == 20 && s.payload == []
  {
    var r1 := SetFlag(Made, Syn);
    var s0 := Render(t, Made);
    assert s0.payload == [] && s0.segSize == 20;
    assert Render(t, r1).payload == [] && Render(t, r1).segSize == 20;
    RenderSized(t, SetSeq(r1, n));
  }

  lemma SynSegFlags(t: TcpTuple, n: u32)
    ensures var s := SynSeg(t, n);
            HasFlag(s.flags, Syn) && !HasFlag(s.flags, Ack) && !HasFlag(s.flags, Fin)
  {
    SynSegWord(t, n);
    OneFlag(SynSeg(t, n).flags, Syn, Ack, Fin);
  }

  /** The SYN+ACK of a listening block: SYN and ACK, sequence number `n`, acknowledgement
      number `ack`. */
  lemma SynAckSegShape(t: TcpTuple, n: u32, ack: u32)
    ensures var s := SynAckSeg(t, n, ack);
            && s.srcPort == t.src.port && s.dstPort == t.dst.port
            && s.seqNum == n && s.ackNum == ack && s.segSize == 20 && s.payload == []
  {
    var r1 := SetFlag(Made, Syn);
    var r2 := SetFlag(r1, Ack);
    var r3 := SetSeq(r2, n);
    var s0 := Render(t, Made);
    assert s0.payload == [] && s0.segSize == 20;
    assert Render(t, r1).payload == [] && Render(t, r1).segSize == 20;
    assert Render(t, r2).payload == [] && Render(t, r2).segSize == 20;
    assert Render(t, r3).payload == [] && Render(t, r3).segSize == 20 && Render(t, r3).seqNum == n;
    RenderSized(t, SetAckNum(r3, ack));
  }

  lemma SynAckSegFlags(t: TcpTuple, n: u32, ack: u32)
    ensures var s := SynAckSeg(t, n, ack);
            HasFlag(s.flags, Syn) && HasFlag(s.flags, Ack) && !HasFlag(s.flags, Fin)
  {
    SynAckSegWord(t, n, ack);
    SynAckFlags(SynAckSeg(t, n, ack).flags);
  }

  /** A bare acknowledgement: ACK alone, acknowledgement number `ack`, sequence number 0. */
  lemma AckSegShape(t: TcpTuple, ack: u32)
    ensures var s := AckSeg(t, ack);
            && s.srcPort == t.src.port && s.dstPort == t.dst.port
            && s.seqNum == 0 && s.ackNum == ack && s.segSize == 20 && s.payload == []
  {
    var r1 := SetFlag(Made, Ack);
    var s0 := Render(t, Made);
    assert s0.payload == [] && s0.segSize == 20 && s0.seqNum == 0;
    assert Render(t, r1).payload == [] && Render(t, r1).segSize == 20 && Render(t, r1).seqNum == 0;
    RenderSized(t, SetAckNum(r1, ack));
  }

  lemma AckSegFlags(t: TcpTuple, ack: u32)
    ensures var s := AckSeg(t, ack);
            HasFlag(s.flags, Ack) && !HasFlag(s.flags, Syn) && !HasFlag(s.flags, Fin)
  {
    AckSegWord(t, ack);
    OneFlag(AckSeg(t, ack).flags, Ack, Syn, Fin);
  }

  /** A data segment: sequence number `n`, no acknowledgement number, the payload, and a size
      counting it. */
  lemma DataSegShape(t: TcpTuple, n: u32, p: seq<u8>)
    requires |p| <= MaxPayloadSize
    ensures var s := DataSeg(t, n, p);
            && s.srcPort == t.src.port && s.dstPort == t.dst.port
            && s.seqNum == n && s.ackNum == 0 && s.segSize == 20 + |p| && s.payload == p
  {
    var r1 := SetSeq(Made, n);
    assert Render(t, Made).ackNum == 0;
    assert Render(t, r1).ackNum == 0 && Render(t, r1).seqNum == n;
    RenderSized(t, SetData(r1, p));
  }

  /** A data segment carries no flag. */
  lemma DataSegFlags(t: TcpTuple, n: u32, p: seq<u8>)
    requires |p| <= MaxPayloadSize
    ensures var s := DataSeg(t, n, p);
            !HasFlag(s.flags, Syn) && !HasFlag(s.flags, Ack) && !HasFlag(s.flags, Fin)
  {
    var r1 := SetSeq(Made, n);
    assert Render(t, Made).flags == 0;
    assert Render(t, r1).flags == 0;
    assert DataSeg(t, n, p).flags == 0;
    NoFlags(Syn);
    NoFlags(Ack);
    NoFlags(Fin);
  }

  // ---------------------------------------------------------------------------------------
  // Wrapped ranges

  /** A difference of 32-bit values, reduced modulo 2^32. */
  lemma WrapSmall(z: int)
    requires -0x1_0000_0000 <= z < 0x2_0000_0000
    ensures Wrap32(z) == if z < 0 then z + 0x1_0000_0000
                         else if z < 0x1_0000_0000 then z else z - 0x1_0000_0000
  {
    var r := Wrap32(z);
    var q := (z - r) / 0x1_0000_0000;
    assert z - r == q * 0x1_0000_0000;
    if z < 0 {
      assert -2 < q < 0;
    } else if z < 0x1_0000_0000 {
      assert -1 < q < 1;
    } else {
      assert 0 < q < 2;
    }
  }

  /** The window of `k` values from `lb` on, counted modulo 2^32: `x` is in it exactly when
      it is fewer than `k` steps above `lb`; `lb` itself is in it and the bound is not. */
  lemma WindowMembership(lb: u32, k: nat, x: u32)
    requires 0 < k < 0x1_0000_0000
    ensures var ub := Wrap32(lb + k);
            && (InWrappedRange(lb, ub, x) <==> Wrap32(x - lb) < k)
            && InWrappedRange(lb, ub, lb) && !InWrappedRange(lb, ub, ub)
  {
    var ub := Wrap32(lb + k);
    WrapSmall(lb + k);
    WrapSmall(ub - lb);
    WrapSmall(x - lb);
    assert Wrap32(lb - lb) == 0;
  }

  /** The acknowledgement numbers `handle_acks` accepts are those 1 to 5 steps above
      `seq_base`, modulo 2^32. */
  lemma AckRange(base: u32, ack: u32)
    ensures var lb := Wrap32(base + 1);
            InWrappedRange(lb, Wrap32(lb + WindowSize), ack) <==> 1 <= Wrap32(ack - base) <= WindowSize
  {
    var lb := Wrap32(base + 1);
    WindowMembership(lb, WindowSize, ack);
    WrapSmall(base + 1);
    WrapSmall(ack - lb);
    WrapSmall(ack - base);
  }

  // ---------------------------------------------------------------------------------------
  // The retransmission queue

  /** `retain` keeps exactly the segments at or above the acknowledgement number. */
  lemma {:induction false} KeepUnackedMembers(segs: seq<SegmentData>, ack: u32)
    ensures forall s :: s in KeepUnacked(segs, ack) <==> s in segs && s.seqNum >= ack
    ensures |KeepUnacked(segs, ack)| <= |segs|
    decreases |segs|
  {
    if segs != [] {
      KeepUnackedMembers(segs[1..], ack);
      assert segs == [segs[0]] + segs[1..];
    }
  }

  /** `retain` keeps the order: filtering a concatenation filters each part. */
  lemma {:induction false} KeepUnackedAppend(a: seq<SegmentData>, b: seq<SegmentData>, ack: u32)
    ensures KeepUnacked(a + b, ack) == KeepUnacked(a, ack) + KeepUnacked(b, ack)
    decreases |a|
  {
    if a == [] {
      assert a + b == b;
    } else {
      var h := if a[0].seqNum >= ack then [a[0]] else [];
      assert (a + b)[0] == a[0] && (a + b)[1..] == a[1..] + b;
      KeepUnackedAppend(a[1..], b, ack);
      var ka, kb := KeepUnacked(a[1..], ack), KeepUnacked(b, ack);
      assert KeepUnacked(a + b, ack) == h + (ka + kb);
      assert KeepUnacked(a, ack) == h + ka;
      assert h + (ka + kb) == (h + ka) + kb;
    }
  }

  // ---------------------------------------------------------------------------------------
  // Sending

  /** Bytes 2k and 2k+1 of the data, or only 2k when that is the last. */
  function Piece(data: seq<u8>, k: nat): (p: seq<u8>)
    requires 2 * k < |data|
    ensures 1 <= |p| <= MaxPayloadSize
  {
    data[2 * k..Min(2 * k + 2, |data|)]
  }

  /** The segments `send_data` should produce, the first byte of `data` numbered `first`:
      each carries at most two bytes and the sequence number of its first byte, modulo
      2^32. */
  function DataSegs(t: TcpTuple, data: seq<u8>, first: int): (segs: seq<SegmentData>)
    ensures |segs| == (|data| + 1) / 2
    decreases |data|
  {
    if data == [] then []
    else
      var size := Min(MaxPayloadSize, |data|);
      [DataSeg(t, Wrap32(first), data[..size])] + DataSegs(t, data[size..], first + size)
  }

  /** The run is its first segment followed by the run for the rest of the data. */
  lemma DataSegsCons(t: TcpTuple, data: seq<u8>, first: int)
    requires data != []
    ensures var size := Min(MaxPayloadSize, |data|);
            DataSegs(t, data, first)
            == [DataSeg(t, Wrap32(first), data[..size])] + DataSegs(t, data[size..], first + size)
  {
  }

  /** Dropping the first two bytes drops the first piece. */
  lemma PieceShift(data: seq<u8>, k: nat)
    requires 2 <= |data| && 1 <= k && 2 * k < |data|
    ensures Piece(data[2..], k - 1) == Piece(data, k)
  {
    assert Min(2 * (k - 1) + 2, |data| - 2) + 2 == Min(2 * k + 2, |data|);
  }

  /** Segment k carries piece k of the data, bytes 2k and 2k+1, under sequence number
      `first + 2k` modulo 2^32. */
  lemma DataSegsAt(t: TcpTuple, data: seq<u8>, first: int, k: nat)
    requires 2 * k < |data|
    ensures k < |DataSegs(t, data, first)|
    ensures DataSegs(t, data, first)[k] == DataSeg(t, Wrap32(first + 2 * k), Piece(data, k))
  {
    DataSegsIndex(t, data, first, k, Wrap32(first + 2 * k), Piece(data, k));
  }

  lemma {:induction false} DataSegsIndex(t: TcpTuple, data: seq<u8>, first: int, k: nat, n: u32,
                                         p: seq<u8>)
    requires 2 * k < |data| && n == Wrap32(first + 2 * k) && p == Piece(data, k)
    ensures DataSegs(t, data, first)[k] == DataSeg(t, n, p)
    decreases k
  {
    DataSegsCons(t, data, first);
    if k > 0 {
      PieceShift(data, k);
      assert first + 2 + 2 * (k - 1) == first + 2 * k;
      DataSegsIndex(t, data[2..], first + 2, k - 1, n, p);
    } else {
      assert Piece(data, 0) == data[..Min(MaxPayloadSize, |data|)];
    }
  }

  /** The payloads of a run of segments, one after another. */
  function JoinPayloads(segs: seq<SegmentData>): seq<u8> {
    if segs == [] then [] else segs[0].payload + JoinPayloads(segs[1..])
  }

  /** Runs whose payloads are the pieces of the data put them back together. */
  lemma {:induction false} PiecesJoin(segs: seq<SegmentData>, data: seq<u8>)
    requires |segs| == (|data| + 1) / 2
    requires forall k :: 0 <= k < |segs| ==> segs[k].payload == Piece(data, k)
    ensures JoinPayloads(segs) == data
    decreases |segs|
  {
    if segs != [] {
      var size := Min(MaxPayloadSize, |data|);
      if |data| > 2 {
        forall k | 0 <= k < |segs| - 1 ensures segs[1..][k].payload == Piece(data[2..], k) {
          PieceShift(data, k + 1);
        }
      }
      PiecesJoin(segs[1..], data[size..]);
      assert Piece(data, 0) == data[..size];
      assert data == data[..size] + data[size..];
    }
  }

  /** The payloads of the segments put back together are the data. */
  lemma DataSegsJoin(t: TcpTuple, data: seq<u8>, first: int)
    ensures JoinPayloads(DataSegs(t, data, first)) == data
  {
    var segs := DataSegs(t, data, first);
    forall k | 0 <= k < |segs| ensures segs[k].payload == Piece(data, k) {
      DataSegsAt(t, data, first, k);
      DataSegShape(t, Wrap32(first + 2 * k), Piece(data, k));
    }
    PiecesJoin(segs, data);
  }

  /** `send_seg` applied to each segment of a run in turn, stopping at the first panic. */
  function SendRun(d: TcbData, segs: seq<SegmentData>): (st: Step)
    decreases |segs|
  {
    if segs == [] then Step(d, Done)
    else
      var s := SendSegSpec(d, segs[0]);
      if s.r != Done then s else SendRun(s.d, segs[1..])
  }

  /** How many segments at the front of the run `send_seg` accepts, i.e. are not below
      `base`. */
  function Leading(segs: seq<SegmentData>, base: u32): (k: nat)
    ensures k <= |segs|
    ensures forall i :: 0 <= i < k ==> segs[i].seqNum >= base
    ensures k < |segs| ==> segs[k].seqNum < base
  {
    if segs == [] || segs[0].seqNum < base then 0 else 1 + Leading(segs[1..], base)
  }

  /** Sending a run writes and queues its accepted front; the run panics exactly when a
      segment is left over. */
  lemma {:induction false} SendRunClosed(d: TcbData, segs: seq<SegmentData>)
    ensures var k := Leading(segs, d.seqBase);
            SendRun(d, segs)
            == Step(d.(outbox := d.outbox + segs[..k], unacked := d.unacked + segs[..k]),
                    if k == |segs| then Done else Panicked(SeqBelowBase))
    decreases |segs|
  {
    if segs == [] || segs[0].seqNum < d.seqBase {
      assert segs[..0] == [];
      assert d.outbox + [] == d.outbox && d.unacked + [] == d.unacked;
    } else {
      var seg := segs[0];
      var d1 := d.(outbox := d.outbox + [seg], unacked := d.unacked + [seg]);
      SendRunClosed(d1, segs[1..]);
      var k := Leading(segs[1..], d.seqBase);
      assert segs[..k + 1] == [seg] + segs[1..][..k];
      QueuedTwice(d, [seg], segs[1..][..k]);
    }
  }

  /** Writing and queueing one run after another is writing and queueing both. */
  lemma QueuedTwice(d: TcbData, a: seq<SegmentData>, b: seq<SegmentData>)
    ensures var d1 := d.(outbox := d.outbox + a, unacked := d.unacked + a);
            d1.(outbox := d1.outbox + b, unacked := d1.unacked + b)
            == d.(outbox := d.outbox + (a + b), unacked := d.unacked + (a + b))
  {
    assert d.outbox + a + b == d.outbox + (a + b);
    assert d.unacked + a + b == d.unacked + (a + b);
  }

  /** The loop of `send_data` sends exactly the segments of DataSegs, in order. */
  lemma SendDataRun(d: TcbData, data: seq<u8>, next: u32, sent: nat)
    ensures SendDataSpec(d, data, next, sent) == SendRun(d, DataSegs(d.tuple, data, next + sent))
  {
    SendDataRunFrom(d, data, next, sent, DataSegs(d.tuple, data, next + sent));
  }

  lemma {:induction false} SendDataRunFrom(d: TcbData, data: seq<u8>, next: u32, sent: nat,
                                           segs: seq<SegmentData>)
    requires segs == DataSegs(d.tuple, data, next + sent)
    ensures SendDataSpec(d, data, next, sent) == SendRun(d, segs)
    decreases |data|
  {
    if data != [] {
      var size := Min(MaxPayloadSize, |data|);
      DataSegsCons(d.tuple, data, next + sent);
      var st := SendSegSpec(d, segs[0]);
      SendDataStep(d, data, next, sent, st);
      if st.r == Done {
        assert st.d.tuple == d.tuple && next + (sent + size) == next + sent + size;
        SendDataRunFrom(st.d, data[size..], next, sent + size, segs[1..]);
      }
      SendDataRunStep(d, data, next, sent, segs[0], segs[1..], st);
      assert segs == [segs[0]] + segs[1..];
    }
  }

  /** One turn of the loop of `send_data`, given the rest of the run. */
  lemma SendDataRunStep(d: TcbData, data: seq<u8>, next: u32, sent: nat,
                        seg: SegmentData, rest: seq<SegmentData>, st: Step)
    requires data != []
    requires seg == DataSeg(d.tuple, Wrap32(next + sent), data[..Min(MaxPayloadSize, |data|)])
    requires st == SendSegSpec(d, seg)
    requires st.r == Done ==>
               SendDataSpec(st.d, data[Min(MaxPayloadSize, |data|)..], next,
                            sent + Min(MaxPayloadSize, |data|)) == SendRun(st.d, rest)
    ensures SendDataSpec(d, data, next, sent) == SendRun(d, [seg] + rest)
  {
    SendDataStep(d, data, next, sent, st);
    SendRunCons(d, seg, rest);
  }

  lemma SendRunCons(d: TcbData, seg: SegmentData, rest: seq<SegmentData>)
    ensures var st := SendSegSpec(d, seg);
            SendRun(d, [seg] + rest) == if st.r != Done then st else SendRun(st.d, rest)
  {
    assert ([seg] + rest)[0] == seg && ([seg] + rest)[1..] == rest;
  }

  /** The loop of `send_data` writes and queues the segments of DataSegs in order until one
      falls below `seq_base`, where the assertion of `send_seg` fails. */
  lemma SendDataClosed(d: TcbData, data: seq<u8>, next: u32, sent: nat)
    ensures var segs := DataSegs(d.tuple, data, next + sent);
            var k := Leading(segs, d.seqBase);
            SendDataSpec(d, data, next, sent)
            == Step(d.(outbox := d.outbox + segs[..k], unacked := d.unacked + segs[..k]),
                    if k == |segs| then Done else Panicked(SeqBelowBase))
  {
    SendDataRun(d, data, next, sent);
    SendRunClosed(d, DataSegs(d.tuple, data, next + sent));
  }

  /** When no sequence number of the run wraps below `base`, every segment is accepted. */
  lemma SendDataNoWrap(t: TcpTuple, data: seq<u8>, base: u32, first: int)
    requires base <= first && first + |data| <= 0x1_0000_0000
    ensures Leading(DataSegs(t, data, first), base) == |DataSegs(t, data, first)|
  {
    var segs := DataSegs(t, data, first);
    forall k | 0 <= k < |segs| ensures segs[k].seqNum >= base {
      DataSegsAt(t, data, first, k);
      DataSegShape(t, Wrap32(first + 2 * k), Piece(data, k));
      WrapSmall(first + 2 * k);
    }
    LeadingAll(segs, base);
  }

  lemma {:induction false} LeadingAll(segs: seq<SegmentData>, base: u32)
    requires forall k :: 0 <= k < |segs| ==> segs[k].seqNum >= base
    ensures Leading(segs, base) == |segs|
    decreases |segs|
  {
    if segs != [] {
      LeadingAll(segs[1..], base);
    }
  }

  /** `fill_send_window` in an established block moves as many bytes as fit, in order, from
      the front of the buffer to the back of the window: no byte is lost or duplicated, the
      window never exceeds five bytes, and either it is full or the buffer is empty. Only the
      window, the buffer and the two queues change. */
  lemma FillMoves(d: TcbData)
    requires WellFormed(d) && d.state == Estab
    ensures var st := FillSpec(d);
            var amt := Min(|d.sendBuffer|, WindowSize - |d.sendWindow|);
            && st.d.sendWindow == d.sendWindow + d.sendBuffer[..amt]
            && st.d.sendBuffer == d.sendBuffer[amt..]
            && st.d.sendWindow + st.d.sendBuffer == d.sendWindow + d.sendBuffer
            && |st.d.sendWindow| <= WindowSize
            && (|st.d.sendWindow| == WindowSize || st.d.sendBuffer == [])
            && st.d == d.(sendWindow := st.d.sendWindow, sendBuffer := st.d.sendBuffer,
                          outbox := st.d.outbox, unacked := st.d.unacked)
            && st.d.ackBase == d.ackBase && st.d.state == d.state
  {
    var amt := Min(|d.sendBuffer|, WindowSize - |d.sendWindow|);
    assert d.sendBuffer == d.sendBuffer[..amt] + d.sendBuffer[amt..];
  }

  /** When no sequence number of the data wraps below `seq_base`, the loop of `send_data`
      returns normally after writing and queueing every segment of DataSegs. */
  lemma SendDataAll(d: TcbData, data: seq<u8>, next: u32)
    requires d.seqBase <= next && next + |data| <= 0x1_0000_0000
    ensures var segs := DataSegs(d.tuple, data, next);
            SendDataSpec(d, data, next, 0)
            == Step(d.(outbox := d.outbox + segs, unacked := d.unacked + segs), Done)
  {
    var segs := DataSegs(d.tuple, data, next);
    SendDataClosed(d, data, next, 0);
    SendDataNoWrap(d.tuple, data, d.seqBase, next);
    assert segs[..|segs|] == segs;
  }

  /** While `seq_base + 5` does not wrap, `fill_send_window` returns normally, and it writes
      and queues the segments that carry the bytes it moved, numbered from `seq_base` plus the
      old window length on. */
  lemma FillSends(d: TcbData)
    requires WellFormed(d) && d.state == Estab && d.seqBase + WindowSize < 0x1_0000_0000
    ensures var st := FillSpec(d);
            var amt := Min(|d.sendBuffer|, WindowSize - |d.sendWindow|);
            var segs := DataSegs(d.tuple, d.sendBuffer[..amt], d.seqBase + |d.sendWindow|);
            && st.r == Done
            && st.d.outbox == d.outbox + segs && st.d.unacked == d.unacked + segs
  {
    var m := FillMoved(d);
    SendDataAll(m, d.sendBuffer[..FillAmount(d)], d.seqBase + |d.sendWindow|);
  }

  // ---------------------------------------------------------------------------------------
  // Receiving

  /** The window after bytes i.. of `p` have been written at `base + i` onwards: every slot
      in that range that exists holds its byte, every other slot is as before. */
  function Stored(w: seq<Option<u8>>, base: nat, p: seq<u8>, i: nat): (r: seq<Option<u8>>)
    ensures |r| == |w|
  {
    seq(|w|, j requires 0 <= j < |w| =>
      if base + i <= j < base + |p| then Some(p[j - base]) else w[j])
  }

  /** The `for` loop of `handle_payload` from byte `i` on writes the rest of the payload into
      its slots; it returns normally exactly when the payload fits the window, and otherwise
      indexes past the window after filling the slots that exist. Nothing else changes. */
  lemma {:induction false} StoreClosed(d: TcbData, base: nat, p: seq<u8>, i: nat)
    requires i <= |p|
    ensures StoreSpec(d, base, p, i)
            == Step(d.(recvWindow := Stored(d.recvWindow, base, p, i)),
                    if i == |p| || base + |p| <= |d.recvWindow| then Done else Panicked(WindowIndex))
    decreases |p| - i
  {
    var w := d.recvWindow;
    if i == |p| {
      assert Stored(w, base, p, i) == w;
    } else if base + i >= |w| {
      assert Stored(w, base, p, i) == w;
    } else {
      var w1 := w[base + i := Some(p[i])];
      StoreClosed(d.(recvWindow := w1), base, p, i + 1);
      assert Stored(w1, base, p, i + 1) == Stored(w, base, p, i);
    }
  }

  /** The bytes at the front of the window up to its first empty slot. */
  function FrontRun(w: seq<Option<u8>>): (run: seq<u8>)
    ensures |run| <= |w|
  {
    if w == [] || w[0].None? then [] else [w[0].value] + FrontRun(w[1..])
  }

  /** The front run is what its name says: the slots before its end hold its bytes, and the
      slot at its end, if any, is empty. */
  lemma {:induction false} FrontRunFilled(w: seq<Option<u8>>)
    ensures var run := FrontRun(w);
            && (forall k :: 0 <= k < |run| ==> w[k] == Some(run[k]))
            && (|run| < |w| ==> w[|run|].None?)
    decreases |w|
  {
    if w != [] && w[0].Some? {
      FrontRunFilled(w[1..]);
      var run := FrontRun(w);
      assert run == [w[0].value] + FrontRun(w[1..]);
      forall k | 1 <= k < |run| ensures w[k] == Some(run[k]) {
        assert w[k] == w[1..][k - 1];
      }
    }
  }

  /** n empty slots. */
  function Empties(n: nat): (e: seq<Option<u8>>)
    ensures |e| == n
  {
    seq(n, _ => None)
  }

  /** An empty slot appended at the back does not lengthen the front run. */
  lemma {:induction false} FrontRunPadded(w: seq<Option<u8>>)
    ensures FrontRun(w + [None]) == FrontRun(w)
    decreases |w|
  {
    if w != [] && w[0].Some? {
      assert (w + [None])[1..] == w[1..] + [None];
      FrontRunPadded(w[1..]);
    }
  }

  /** What the `loop` of `handle_payload` does to a window and `ack_base`. */
  datatype Delivery = Delivery(out: seq<u8>, ack: u32, window: seq<Option<u8>>, r: Outcome)

  /** The `loop` of `handle_payload` should hand on the front run of filled slots, move
      `ack_base` past it and shift the window by its length; if `ack_base` would pass
      2^32 - 1, it should panic after handing on the byte at 2^32 - 1, with the window
      shifted up to that byte. */
  function Delivered(w: seq<Option<u8>>, ackBase: u32): (v: Delivery)
  {
    var run := FrontRun(w);
    var n := |run|;
    if ackBase + n < 0x1_0000_0000 then Delivery(run, ackBase + n, w[n..] + Empties(n), Done)
    else
      var k := 0xFFFF_FFFF - ackBase;
      Delivery(run[..k + 1], 0xFFFF_FFFF, w[k..] + Empties(k), Panicked(AckOverflow))
  }

  /** The loop of `handle_payload` does what Delivered says, and changes nothing else. */
  lemma {:induction false} DeliverClosed(d: TcbData)
    ensures DeliverSpec(d) == DeliveredStep(d)
    decreases |FrontRun(d.recvWindow)|
  {
    var w := d.recvWindow;
    if w == [] || w[0].None? {
      assert w[0..] + Empties(0) == w;
    } else if d.ackBase + 1 >= 0x1_0000_0000 {
      assert FrontRun(w)[..1] == [w[0].value];
      assert w[0..] + Empties(0) == w;
    } else {
      FilledShift(w);
      var d2 := d.(delivered := d.delivered + [w[0].value], ackBase := d.ackBase + 1,
                   recvWindow := w[1..] + [None]);
      DeliveredShift(w, d.ackBase);
      DeliverClosed(d2);
      DeliverOne(d, d2);
    }
  }

  /** The block with Delivered applied. */
  function DeliveredStep(d: TcbData): (st: Step)
    ensures st.d == d.(delivered := st.d.delivered, ackBase := st.d.ackBase,
                       recvWindow := st.d.recvWindow)
  {
    var v := Delivered(d.recvWindow, d.ackBase);
    Step(d.(delivered := d.delivered + v.out, ackBase := v.ack, recvWindow := v.window), v.r)
  }

  lemma DeliverOne(d: TcbData, d2: TcbData)
    requires d.recvWindow != [] && d.recvWindow[0].Some? && d.ackBase + 1 < 0x1_0000_0000
    requires d2 == d.(delivered := d.delivered + [d.recvWindow[0].value],
                      ackBase := d.ackBase + 1, recvWindow := d.recvWindow[1..] + [None])
    requires var v := Delivered(d.recvWindow, d.ackBase);
             var v2 := Delivered(d2.recvWindow, d2.ackBase);
             && v2.ack == v.ack && v2.window == v.window && v2.r == v.r
             && [d.recvWindow[0].value] + v2.out == v.out
    ensures DeliveredStep(d2) == DeliveredStep(d)
  {
    var v := Delivered(d.recvWindow, d.ackBase);
    var v2 := Delivered(d2.recvWindow, d2.ackBase);
    assert d2.delivered + v2.out == d.delivered + v.out;
  }

  /** Handing on the front slot by hand, then the rest, is the same as handing on all. */
  lemma DeliveredShift(w: seq<Option<u8>>, ackBase: u32)
    requires w != [] && w[0].Some? && ackBase + 1 < 0x1_0000_0000
    ensures |FrontRun(w[1..] + [None])| < |FrontRun(w)|
    ensures var v := Delivered(w, ackBase);
            var v2 := Delivered(w[1..] + [None], ackBase + 1);
            && v2.ack == v.ack && v2.window == v.window && v2.r == v.r
            && [w[0].value] + v2.out == v.out
  {
    var run := FrontRun(w);
    assert run == [w[0].value] + FrontRun(w[1..]);
    FrontRunPadded(w[1..]);
    var w2 := w[1..] + [None];
    assert FrontRun(w2) == run[1..];
    if ackBase + |run| < 0x1_0000_0000 {
      DeliveredShiftDone(w, ackBase, run, w2);
    } else {
      DeliveredShiftOverflow(w, ackBase, run, w2);
    }
  }

  lemma DeliveredShiftDone(w: seq<Option<u8>>, ackBase: u32, run: seq<u8>, w2: seq<Option<u8>>)
    requires w != [] && w[0].Some? && ackBase + |run| < 0x1_0000_0000
    requires run == FrontRun(w) && w2 == w[1..] + [None] && FrontRun(w2) == run[1..]
    requires run == [w[0].value] + run[1..]
    ensures var v := Delivered(w, ackBase);
            var v2 := Delivered(w2, ackBase + 1);
            && v2.ack == v.ack && v2.window == v.window && v2.r == v.r
            && [w[0].value] + v2.out == v.out
  {
    var n := |run|;
    ShiftedWindow(w, n);
    assert Delivered(w, ackBase) == Delivery(run, ackBase + n, w[n..] + Empties(n), Done);
    assert Delivered(w2, ackBase + 1)
           == Delivery(run[1..], ackBase + n, w2[n - 1..] + Empties(n - 1), Done);
  }

  lemma DeliveredShiftOverflow(w: seq<Option<u8>>, ackBase: u32, run: seq<u8>,
                               w2: seq<Option<u8>>)
    requires w != [] && w[0].Some? && ackBase + 1 < 0x1_0000_0000
    requires ackBase + |run| >= 0x1_0000_0000
    requires run == FrontRun(w) && w2 == w[1..] + [None] && FrontRun(w2) == run[1..]
    requires run == [w[0].value] + run[1..]
    ensures var v := Delivered(w, ackBase);
            var v2 := Delivered(w2, ackBase + 1);
            && v2.ack == v.ack && v2.window == v.window && v2.r == v.r
            && [w[0].value] + v2.out == v.out
  {
    var k := 0xFFFF_FFFF - ackBase;
    ShiftedWindow(w, k);
    assert [w[0].value] + run[1..][..k] == run[..k + 1];
    assert Delivered(w, ackBase)
           == Delivery(run[..k + 1], 0xFFFF_FFFF, w[k..] + Empties(k), Panicked(AckOverflow));
    assert Delivered(w2, ackBase + 1)
           == Delivery(run[1..][..k], 0xFFFF_FFFF, w2[k - 1..] + Empties(k - 1),
                       Panicked(AckOverflow));
  }

  lemma ShiftedWindow(w: seq<Option<u8>>, n: nat)
    requires 1 <= n <= |w|
    ensures (w[1..] + [None])[n - 1..] + Empties(n - 1) == w[n..] + Empties(n)
  {
    assert (w[1..] + [None])[n - 1..] == w[n..] + [None];
    assert [None] + Empties(n - 1) == Empties(n);
  }

  /** A segment is stored at its offset above `ack_base` when that offset is inside the
      window; the offset is 0 exactly for the in-order segment. */
  lemma StoreInWindowClosed(d: TcbData, seg: SegmentData)
    ensures var off := Wrap32(seg.seqNum - d.ackBase);
            && (off == 0 <==> seg.seqNum == d.ackBase)
            && StoreInWindow(d, seg)
               == if off < WindowSize then StoreSpec(d, off, seg.payload, 0) else Step(d, Done)
  {
    var off := Wrap32(seg.seqNum - d.ackBase);
    InWindowOffset(d.ackBase, seg.seqNum);
    WrapZero(seg.seqNum, d.ackBase);
    if off < WindowSize {
      assert StoreInWindow(d, seg) == StoreSpec(d, off, seg.payload, 0);
    } else {
      assert StoreInWindow(d, seg) == Step(d, Done);
    }
  }

  /** The receive window test of `handle_payload` is a bound on the wrapped offset. */
  lemma InWindowOffset(base: u32, x: u32)
    ensures InWrappedRange(base, Wrap32(base + WindowSize), x) <==> Wrap32(x - base) < WindowSize
  {
    WindowMembership(base, WindowSize, x);
  }

  /** The wrapped difference of two numbers is 0 exactly when they are equal. */
  lemma WrapZero(x: u32, b: u32)
    ensures Wrap32(x - b) == 0 <==> x == b
  {
    WrapSmall(x - b);
  }

  /** `handle_payload` in an established block: a segment whose offset above `ack_base` is
      outside the window is dropped; one inside is written into its slots, panicking when
      it runs past the window; an in-order one then has the front run handed on and
      `ack_base` acknowledged. */
  lemma PayloadClosed(d: TcbData, seg: SegmentData)
    requires WellFormed(d) && d.state == Estab
    ensures var off := Wrap32(seg.seqNum - d.ackBase);
            var d1 := d.(recvWindow := Stored(d.recvWindow, off, seg.payload, 0));
            var ds := DeliveredStep(d1);
            PayloadSpec(d, seg)
            == if off >= WindowSize then Step(d, Done)
               else if off + |seg.payload| > WindowSize then Step(d1, Panicked(WindowIndex))
               else if off != 0 then Step(d1, Done)
               else if ds.r != Done then ds
               else Step(ds.d.(outbox := ds.d.outbox + [AckSeg(d.tuple, ds.d.ackBase)]), Done)
  {
    var off := Wrap32(seg.seqNum - d.ackBase);
    StoreInWindowClosed(d, seg);
    if off < WindowSize {
      StoreClosed(d, off, seg.payload, 0);
      DeliverClosed(d.(recvWindow := Stored(d.recvWindow, off, seg.payload, 0)));
    }
  }

  /** A segment whose offset above `ack_base` is outside the window changes nothing. */
  lemma PayloadOutside(d: TcbData, seg: SegmentData)
    requires WellFormed(d) && Wrap32(seg.seqNum - d.ackBase) >= WindowSize
    ensures PayloadSpec(d, seg) == Step(d, Done)
  {
    StoreInWindowClosed(d, seg);
  }

  /** The in-order payload heads the slots, so it heads the front run: a block that does not
      overflow `ack_base` hands on at least the whole payload, first. */
  lemma InOrderFront(w: seq<Option<u8>>, p: seq<u8>)
    requires |p| <= |w|
    ensures var run := FrontRun(Stored(w, 0, p, 0));
            |p| <= |run| && run[..|p|] == p
  {
    var s := Stored(w, 0, p, 0);
    FrontRunPrefix(s, p);
  }

  lemma {:induction false} FrontRunPrefix(s: seq<Option<u8>>, p: seq<u8>)
    requires |p| <= |s| && forall k :: 0 <= k < |p| ==> s[k] == Some(p[k])
    ensures |p| <= |FrontRun(s)| && FrontRun(s)[..|p|] == p
    decreases |p|
  {
    if p != [] {
      FrontRunPrefix(s[1..], p[1..]);
      assert FrontRun(s) == [p[0]] + FrontRun(s[1..]);
    }
  }

  // ---------------------------------------------------------------------------------------
  // Acknowledgements

  /** `handle_acks` takes an acknowledgement exactly when the segment has ACK set and its
      number is 1 to 5 steps above `seq_base`, modulo 2^32; otherwise nothing changes. */
  lemma AcksClosed(d: TcbData, seg: SegmentData)
    requires WellFormed(d)
    ensures var num := Wrap32(seg.ackNum - d.seqBase);
            AcksSpec(d, seg)
            == if HasFlag(seg.flags, Ack) && 1 <= num <= WindowSize then TakeAck(d, seg.ackNum)
               else Step(d, Done)
  {
    AckRange(d.seqBase, seg.ackNum);
  }

  /** The block once an acknowledgement for `ack` has dropped the acknowledged segments and
      bytes, before the window is refilled. */
  function Acked(d: TcbData, ack: u32): (e: TcbData)
    requires WellFormed(d) && Wrap32(ack - d.seqBase) <= |d.sendWindow|
    ensures WellFormed(e)
  {
    d.(unacked := KeepUnacked(d.unacked, ack), seqBase := ack,
       sendWindow := d.sendWindow[Wrap32(ack - d.seqBase)..])
  }

  /** In an established block, an acknowledgement still inside the window refills it. */
  lemma AckFills(d: TcbData, ack: u32)
    requires WellFormed(d) && d.state == Estab && Wrap32(ack - d.seqBase) <= |d.sendWindow|
    ensures TakeAck(d, ack) == FillSpec(Acked(d, ack))
  {
  }

  /** An acknowledgement of `num` bytes still in the window of an established block: `seq_base`
      becomes `ack`, the acknowledged bytes leave the window and the window is refilled from
      the buffer with no byte lost; the receiving side is untouched. */
  lemma AckTaken(d: TcbData, ack: u32)
    requires WellFormed(d) && d.state == Estab
    requires 1 <= Wrap32(ack - d.seqBase) <= |d.sendWindow| && ack + WindowSize < 0x1_0000_0000
    ensures var num := Wrap32(ack - d.seqBase);
            var rest := d.sendWindow[num..];
            var amt := Min(|d.sendBuffer|, WindowSize - |rest|);
            var st := TakeAck(d, ack);
            && st.d.seqBase == ack && st.d.state == Estab
            && st.d.sendWindow == rest + d.sendBuffer[..amt]
            && st.d.sendBuffer == d.sendBuffer[amt..]
            && st.d.recvWindow == d.recvWindow && st.d.ackBase == d.ackBase
            && st.d.delivered == d.delivered
  {
    AckFills(d, ack);
    FillMoves(Acked(d, ack));
  }

  /** With room above `ack` for a full window, taking the acknowledgement returns normally:
      the acknowledged segments leave the queue, and the segments carrying the bytes moved
      into the window are written and queued, numbered from `ack` plus what stayed in the
      window. */
  lemma AckSends(d: TcbData, ack: u32)
    requires WellFormed(d) && d.state == Estab
    requires 1 <= Wrap32(ack - d.seqBase) <= |d.sendWindow| && ack + WindowSize < 0x1_0000_0000
    ensures var num := Wrap32(ack - d.seqBase);
            var rest := d.sendWindow[num..];
            var amt := Min(|d.sendBuffer|, WindowSize - |rest|);
            var segs := DataSegs(d.tuple, d.sendBuffer[..amt], ack + |rest|);
            var st := TakeAck(d, ack);
            && st.r == Done
            && st.d.unacked == KeepUnacked(d.unacked, ack) + segs
            && st.d.outbox == d.outbox + segs
  {
    var e := Acked(d, ack);
    AckFills(d, ack);
    FillSends(e);
    assert e.tuple == d.tuple && e.sendBuffer == d.sendBuffer && e.seqBase == ack;
    assert e.sendWindow == d.sendWindow[Wrap32(ack - d.seqBase)..];
  }

  // ---------------------------------------------------------------------------------------
  // Segments through `handle_seg`

  /** A listening block that receives a SYN without ACK or FIN moves to SynRecd, takes the
      SYN's number plus one as `ack_base`, and writes and queues one SYN+ACK carrying its
      `seq_base` and that `ack_base`. */
  lemma SegListenSyn(d: TcbData, seg: SegmentData)
    requires WellFormed(d) && d.state == Listen
    requires HasFlag(seg.flags, Syn) && !HasFlag(seg.flags, Ack) && !HasFlag(seg.flags, Fin)
    ensures var a := Wrap32(seg.seqNum + 1);
            var sa := SynAckSeg(d.tuple, d.seqBase, a);
            HandleSegSpec(d, seg)
            == Step(d.(state := SynRecd, ackBase := a, outbox := d.outbox + [sa],
                       unacked := d.unacked + [sa]), Done)
  {
    var a := Wrap32(seg.seqNum + 1);
    SynAckSegShape(d.tuple, d.seqBase, a);
    ShakeListenStep(d, seg);
  }

  /** A block that sent its SYN and receives an acceptable SYN+ACK without FIN: the
      acknowledged segments leave the queue, `seq_base` moves to the acknowledgement number,
      the block is established with the SYN+ACK's number plus one as `ack_base`, writes a
      bare ACK of it, and fills its send window; the SYN+ACK's own number lies outside the
      new receive window, so no payload is taken. */
  lemma SegSynSentSynAck(d: TcbData, seg: SegmentData)
    requires WellFormed(d) && d.state == SynSent
    requires HasFlag(seg.flags, Syn) && HasFlag(seg.flags, Ack) && !HasFlag(seg.flags, Fin)
    requires 1 <= Wrap32(seg.ackNum - d.seqBase) <= WindowSize
    ensures var a := Wrap32(seg.seqNum + 1);
            HandleSegSpec(d, seg)
            == FillSpec(d.(unacked := KeepUnacked(d.unacked, seg.ackNum), seqBase := seg.ackNum,
                           state := Estab, ackBase := a,
                           outbox := d.outbox + [AckSeg(d.tuple, a)]))
  {
    var a := Wrap32(seg.seqNum + 1);
    AcksClosed(d, seg);
    var d1 := d.(unacked := KeepUnacked(d.unacked, seg.ackNum), seqBase := seg.ackNum);
    assert AcksSpec(d, seg) == Step(d1, Done);
    ShakeSynSentStep(d1, seg);
    var e := SendAckSpec(d1.(state := Estab, ackBase := a), AckSeg(d.tuple, a));
    var f := FillSpec(e);
    WrapBelow(seg.seqNum, a);
    FillOutside(e, seg);
    HandleSegThrough(d, seg, Step(d1, Done), f);
  }

  /** A number lies 2^32 - 1 steps above its successor, modulo 2^32. */
  lemma WrapBelow(x: u32, a: u32)
    requires a == Wrap32(x + 1)
    ensures Wrap32(x - a) == 0xFFFF_FFFF
  {
    WrapSmall(x + 1);
    WrapSmall(x - a);
  }

  /** A block that sent its SYN+ACK and receives an acceptable ACK without SYN or FIN whose
      number is outside the receive window: the acknowledged segments leave the queue,
      `seq_base` moves up, and the block is established and fills its send window. */
  lemma SegSynRecdAck(d: TcbData, seg: SegmentData)
    requires WellFormed(d) && d.state == SynRecd
    requires HasFlag(seg.flags, Ack) && !HasFlag(seg.flags, Fin)
    requires 1 <= Wrap32(seg.ackNum - d.seqBase) <= WindowSize
    requires Wrap32(seg.seqNum - d.ackBase) >= WindowSize
    ensures HandleSegSpec(d, seg)
            == FillSpec(d.(unacked := KeepUnacked(d.unacked, seg.ackNum), seqBase := seg.ackNum,
                           state := Estab))
  {
    AcksClosed(d, seg);
    var d1 := d.(unacked := KeepUnacked(d.unacked, seg.ackNum), seqBase := seg.ackNum);
    assert AcksSpec(d, seg) == Step(d1, Done);
    ShakeSynRecdStep(d1, seg);
    var f := FillSpec(d1.(state := Estab));
    FillOutside(d1.(state := Estab), seg);
    HandleSegThrough(d, seg, Step(d1, Done), f);
  }

  /** Filling the send window keeps `ack_base`, so a segment outside the receive window
      before the fill is dropped by `handle_payload` after it. */
  lemma FillOutside(e: TcbData, seg: SegmentData)
    requires WellFormed(e) && e.state == Estab && Wrap32(seg.seqNum - e.ackBase) >= WindowSize
    ensures var f := FillSpec(e); f.r == Done ==> PayloadSpec(f.d, seg) == Step(f.d, Done)
  {
    var f := FillSpec(e);
    FillMoves(e);
    if f.r == Done {
      PayloadOutside(f.d, seg);
    }
  }

  /** `handle_seg` without FIN, when `handle_acks` returns normally and the payload is
      dropped, is `handle_shake` on what `handle_acks` left. */
  lemma HandleSegThrough(d: TcbData, seg: SegmentData, s1: Step, s2: Step)
    requires WellFormed(d) && !HasFlag(seg.flags, Fin)
    requires AcksSpec(d, seg) == s1 && s1.r == Done
    requires ShakeSpec(s1.d, seg) == s2
    requires s2.r == Done ==> PayloadSpec(s2.d, seg) == Step(s2.d, Done)
    ensures HandleSegSpec(d, seg) == s2
  {
  }

  /** An established block that receives an acceptable ACK without SYN or FIN whose number
      is outside the receive window does what `handle_acks` does with the acknowledgement
      number, and no more. */
  lemma SegEstabAck(d: TcbData, seg: SegmentData)
    requires WellFormed(d) && d.state == Estab
    requires HasFlag(seg.flags, Ack) && !HasFlag(seg.flags, Fin)
    requires 1 <= Wrap32(seg.ackNum - d.seqBase) <= WindowSize
    requires Wrap32(seg.seqNum - d.ackBase) >= WindowSize
    ensures HandleSegSpec(d, seg) == TakeAck(d, seg.ackNum)
  {
    AcksClosed(d, seg);
    var t := TakeAck(d, seg.ackNum);
    TakeAckKeeps(d, seg.ackNum);
    if t.r == Done {
      var e := t.d;
      assert e.ackBase == d.ackBase && WellFormed(e);
      ShakeIdleStep(e, seg);
      PayloadOutside(e, seg);
    }
  }

  /** Taking an acknowledgement leaves the state and the receiving side alone. */
  lemma TakeAckKeeps(d: TcbData, ack: u32)
    requires WellFormed(d)
    ensures var t := TakeAck(d, ack);
            t.d.state == d.state && t.d.ackBase == d.ackBase && t.d.recvWindow == d.recvWindow
  {
    var num := Wrap32(ack - d.seqBase);
    if d.state == Estab && num <= |d.sendWindow| {
      var d2 := d.(unacked := KeepUnacked(d.unacked, ack), seqBase := ack,
                   sendWindow := d.sendWindow[num..]);
      FillMoves(d2);
    }
  }

  /** A timeout the event loop reports resends the oldest unacknowledged segment, once, and
      changes nothing else: the retransmission queue, both bases, the windows and the state
      stay as they were. With nothing unacknowledged it does nothing at all. */
  lemma TimeoutResends(d: TcbData)
    requires WellFormed(d)
    ensures var st := InputSpec(d, TimedOut);
            && st.r == Done
            && (d.unacked != [] ==> st.d == d.(outbox := d.outbox + [d.unacked[0]]))
            && (d.unacked == [] ==> st.d == d)
  {
  }

  /** `k` timeouts in a row on an open block resend the same oldest segment `k` times. */
  lemma {:induction false} TimeoutsRepeat(d: TcbData, k: nat)
    requires WellFormed(d) && d.state != Closed && d.unacked != []
    ensures RunSpec(d, seq(k, i => TimedOut))
            == Step(d.(outbox := d.outbox + seq(k, i => d.unacked[0])), Done)
    decreases k
  {
    var events := seq(k, i => TimedOut);
    if k > 0 {
      var d1 := d.(outbox := d.outbox + [d.unacked[0]]);
      assert events[0] == TimedOut;
      assert events[1..] == seq(k - 1, i => TimedOut);
      TimeoutsRepeat(d1, k - 1);
      assert [d.unacked[0]] + seq(k - 1, i => d.unacked[0]) == seq(k, i => d.unacked[0]);
    } else {
      assert d.outbox + seq(k, i => d.unacked[0]) == d.outbox;
    }
  }

  /** A FIN closes the block, and `run_tcp` then ignores every later event. */
  lemma RunStopsAtFin(d: TcbData, seg: SegmentData, later: seq<Event>)
    requires WellFormed(d) && d.state != Closed && HasFlag(seg.flags, Fin)
    ensures RunSpec(d, [Input(Receive(seg))] + later) == Step(d.(state := Closed), Done)
  {
    var events := [Input(Receive(seg))] + later;
    assert events[0] == Input(Receive(seg)) && events[1..] == later;
  }

  // ---------------------------------------------------------------------------------------
  // The handshake and send tests of src/tcp.rs

  /** `perform_handshake`: a client sends its SYN, the server answers with a SYN+ACK, the
      client acknowledges it with a bare ACK, and both ends are established with `seq_base`
      and `ack_base` at 2 and nothing left to retransmit. Each end reads the segment the
      other wrote last; their flags are those SynSegFlags, SynAckSegFlags and AckSegFlags
      state. */
  lemma Handshake(ct: TcpTuple, st: TcpTuple)
    ensures var c1 := SendSynSpec(NewTcbData(ct));
            var s1 := HandleSegSpec(NewTcbData(st), SynSeg(ct, 1));
            var c2 := HandleSegSpec(c1, SynAckSeg(st, 1, 2));
            var s2 := HandleSegSpec(s1.d, AckSeg(ct, 2));
            && c1.state == SynSent && c1.outbox == [SynSeg(ct, 1)]
            && s1.r == Done && s1.d.state == SynRecd && s1.d.outbox == [SynAckSeg(st, 1, 2)]
            && c2.r == Done && c2.d.state == Estab
            && c2.d.outbox == [SynSeg(ct, 1), AckSeg(ct, 2)]
            && s2.r == Done && s2.d.state == Estab && s2.d.outbox == [SynAckSeg(st, 1, 2)]
            && c2.d.seqBase == 2 && c2.d.ackBase == 2 && c2.d.unacked == []
            && s2.d.seqBase == 2 && s2.d.ackBase == 2 && s2.d.unacked == []
  {
    var c0 := NewTcbData(ct);
    var s0 := NewTcbData(st);
    var c1 := SendSynSpec(c0);
    var syn := SynSeg(ct, 1);
    SynSegShape(ct, 1);
    SynSegFlags(ct, 1);
    SegListenSyn(s0, syn);
    var synack := SynAckSeg(st, 1, 2);
    var s1 := s0.(state := SynRecd, ackBase := 2, outbox := [synack], unacked := [synack]);
    assert HandleSegSpec(s0, syn) == Step(s1, Done);
    SynAckSegShape(st, 1, 2);
    SynAckSegFlags(st, 1, 2);
    ClientEstablished(c1, synack);
    var ack := AckSeg(ct, 2);
    AckSegShape(ct, 2);
    AckSegFlags(ct, 2);
    ServerEstablished(s1, ack);
  }

  /** The client's half of the handshake: its SYN+ACK arrives. */
  lemma ClientEstablished(c1: TcbData, synack: SegmentData)
    requires c1 == SendSynSpec(NewTcbData(c1.tuple))
    requires HasFlag(synack.flags, Syn) && HasFlag(synack.flags, Ack) && !HasFlag(synack.flags, Fin)
    requires synack.seqNum == 1 && synack.ackNum == 2
    ensures var c2 := HandleSegSpec(c1, synack);
            && c2.r == Done && c2.d.state == Estab && c2.d.seqBase == 2 && c2.d.ackBase == 2
            && c2.d.unacked == [] && c2.d.outbox == c1.outbox + [AckSeg(c1.tuple, 2)]
  {
    var syn := SynSeg(c1.tuple, 1);
    SynSegShape(c1.tuple, 1);
    assert c1.unacked == [syn];
    SegSynSentSynAck(c1, synack);
    assert KeepUnacked(c1.unacked, 2) == [];
    var e := c1.(unacked := [], seqBase := 2, state := Estab, ackBase := 2,
                 outbox := c1.outbox + [AckSeg(c1.tuple, 2)]);
    FillMoves(e);
    FillSends(e);
    assert DataSegs(e.tuple, [], 2) == [];
  }

  /** The server's half of the handshake: the client's ACK arrives. */
  lemma ServerEstablished(s1: TcbData, ack: SegmentData)
    requires WellFormed(s1) && s1.state == SynRecd && s1.seqBase == 1 && s1.ackBase == 2
    requires s1.sendBuffer == [] && s1.sendWindow == [] && |s1.unacked| == 1
    requires s1.unacked[0].seqNum == 1
    requires HasFlag(ack.flags, Ack) && !HasFlag(ack.flags, Fin)
    requires ack.seqNum == 0 && ack.ackNum == 2
    ensures var s2 := HandleSegSpec(s1, ack);
            && s2.r == Done && s2.d.state == Estab && s2.d.seqBase == 2 && s2.d.ackBase == 2
            && s2.d.unacked == [] && s2.d.outbox == s1.outbox
  {
    SegSynRecdAck(s1, ack);
    assert KeepUnacked(s1.unacked, 2) == [] by {
      assert s1.unacked[1..] == [];
    }
    var e := s1.(unacked := [], seqBase := 2, state := Estab);
    FillMoves(e);
    FillSends(e);
    assert DataSegs(e.tuple, [], 2) == [];
  }

  /** `send_test`, after the handshake: the server is handed five bytes 5 and then "Ok"; it
      writes the five bytes that fit its window in three segments numbered 2, 4 and 6; once
      the client acknowledges up to the second segment's number, 4, the server writes the
      remaining two bytes, "Ok", in one segment numbered 7. */
  lemma SendTest(d: TcbData, ct: TcpTuple)
    requires WellFormed(d) && d.state == Estab && d.seqBase == 2 && d.ackBase == 2
    requires d.sendWindow == [] && d.sendBuffer == []
    ensures var data := [5, 5, 5, 5, 5] + [79, 107];
            var segs := [DataSeg(d.tuple, 2, [5, 5]), DataSeg(d.tuple, 4, [5, 5]),
                         DataSeg(d.tuple, 6, [5])];
            var s1 := InputSpec(d, Input(Send(data)));
            var s2 := InputSpec(s1.d, Input(Receive(AckSeg(ct, 4))));
            && s1.r == Done && s1.d.outbox == d.outbox + segs && segs[1].seqNum == 4
            && s2.r == Done && s2.d.outbox == s1.d.outbox + [DataSeg(d.tuple, 7, [79, 107])]
            && DataSeg(d.tuple, 7, [79, 107]).payload == [79, 107]
  {
    var data: seq<u8> := [5, 5, 5, 5, 5] + [79, 107];
    var segs := [DataSeg(d.tuple, 2, [5, 5]), DataSeg(d.tuple, 4, [5, 5]),
                 DataSeg(d.tuple, 6, [5])];
    var d1 := SendTestFill(d, data, segs);
    DataSegShape(d.tuple, 4, [5, 5]);
    SendTestAck(d1, ct, 4);
  }

  /** The first half of `send_test`: the input `Send(data)` fills the window. */
  lemma SendTestFill(d: TcbData, data: seq<u8>, segs: seq<SegmentData>) returns (d1: TcbData)
    requires WellFormed(d) && d.state == Estab && d.seqBase == 2
    requires d.sendWindow == [] && d.sendBuffer == []
    requires data == [5, 5, 5, 5, 5] + [79, 107]
    requires segs == [DataSeg(d.tuple, 2, [5, 5]), DataSeg(d.tuple, 4, [5, 5]),
                      DataSeg(d.tuple, 6, [5])]
    ensures InputSpec(d, Input(Send(data))) == Step(d1, Done)
    ensures d1 == d.(sendWindow := [5, 5, 5, 5, 5], sendBuffer := [79, 107],
                     outbox := d.outbox + segs, unacked := d.unacked + segs)
  {
    var e := d.(sendBuffer := data);
    assert d.sendBuffer + data == data;
    assert Min(|data|, WindowSize - 0) == 5;
    FillMoves(e);
    FillSends(e);
    assert data[..5] == [5, 5, 5, 5, 5] && data[5..] == [79, 107];
    FiveBytes(d.tuple);
    d1 := FillSpec(e).d;
    assert d1.sendWindow == [5, 5, 5, 5, 5];
  }

  lemma FiveBytes(t: TcpTuple)
    ensures DataSegs(t, [5, 5, 5, 5, 5], 2)
            == [DataSeg(t, 2, [5, 5]), DataSeg(t, 4, [5, 5]), DataSeg(t, 6, [5])]
  {
    ThreePieces(t, [5, 5], [5, 5], [5], 2);
    assert [5, 5] + [5, 5] + [5] == [5, 5, 5, 5, 5];
  }

  /** Five bytes from `n` on go out as two, two and one. */
  lemma ThreePieces(t: TcpTuple, p1: seq<u8>, p2: seq<u8>, p3: seq<u8>, n: u32)
    requires |p1| == 2 && |p2| == 2 && |p3| == 1 && n + 4 < 0x1_0000_0000
    ensures DataSegs(t, p1 + p2 + p3, n)
            == [DataSeg(t, n, p1), DataSeg(t, n + 2, p2), DataSeg(t, n + 4, p3)]
  {
    var data := p1 + p2 + p3;
    DataSegsCons(t, data, n);
    assert data[..2] == p1 && data[2..] == p2 + p3;
    DataSegsCons(t, p2 + p3, n + 2);
    assert (p2 + p3)[..2] == p2 && (p2 + p3)[2..] == p3;
    DataSegsCons(t, p3, n + 4);
    assert p3[..1] == p3 && p3[1..] == [];
  }

  /** The second half of `send_test`: the acknowledgement of 4 frees two bytes of the window
      and "Ok" follows. */
  lemma SendTestAck(d1: TcbData, ct: TcpTuple, a: u32)
    requires WellFormed(d1) && d1.state == Estab && d1.seqBase == 2 && d1.ackBase == 2
    requires d1.sendWindow == [5, 5, 5, 5, 5] && d1.sendBuffer == [79, 107] && a == 4
    ensures var s2 := InputSpec(d1, Input(Receive(AckSeg(ct, a))));
            && s2.r == Done && s2.d.outbox == d1.outbox + [DataSeg(d1.tuple, 7, [79, 107])]
            && DataSeg(d1.tuple, 7, [79, 107]).payload == [79, 107]
  {
    var ack := AckSeg(ct, a);
    AckSegShape(ct, a);
    AckSegFlags(ct, a);
    assert Wrap32(ack.seqNum - d1.ackBase) >= WindowSize by {
      WrapSmall(ack.seqNum - d1.ackBase);
    }
    assert Wrap32(a - d1.seqBase) == 2 by {
      WrapSmall(a - d1.seqBase);
    }
    SegEstabAck(d1, ack);
    assert InputSpec(d1, Input(Receive(ack))) == TakeAck(d1, a);
    AckSends(d1, a);
    assert d1.sendWindow[2..] == [5, 5, 5] && d1.sendBuffer[..2] == [79, 107];
    TwoBytes(d1.tuple);
    DataSegShape(d1.tuple, 7, [79, 107]);
  }

  lemma TwoBytes(t: TcpTuple)
    ensures DataSegs(t, [79, 107], 7) == [DataSeg(t, 7, [79, 107])]
  {
    var ok: seq<u8> := [79, 107];
    DataSegsCons(t, ok, 7);
    assert ok[..2] == ok && ok[2..] == [];
  }
}
