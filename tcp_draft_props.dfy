/** What the earlier control block of module TcpDraft guarantees, and how it compares with the
    later one of module Tcp. */
module TcpDraftProperties {
  import opened Bytes
  import opened Segment
  import opened TcpDraft
  import Tcp
  import TcpProperties

  /** A listening block that receives a SYN moves to SynRecd. When the SYN's number has a
      successor below 2^32, that successor becomes `ack_base` and one SYN+ACK carrying
      `seq_base` and `ack_base` is written and queued; otherwise the `+ 1` panics, with the
      state already changed. */
  lemma ShakeListen(d: DraftData, seg: SegmentData)
    requires d.state == Tcp.Listen && HasFlag(seg.flags, Syn)
    ensures var st := ShakeSpec(d, seg);
            if seg.seqNum < 0xFFFF_FFFF then
              var sa := Tcp.SynAckSeg(d.tuple, d.seqBase, seg.seqNum + 1);
              && st == Step(d.(state := Tcp.SynRecd, ackBase := seg.seqNum + 1,
                               outbox := d.outbox + [sa], unacked := d.unacked + [sa]), Done)
              && sa.seqNum == d.seqBase && sa.ackNum == seg.seqNum + 1
              && HasFlag(sa.flags, Syn) && HasFlag(sa.flags, Ack) && !HasFlag(sa.flags, Fin)
            else st == Step(d.(state := Tcp.SynRecd), Panicked(AckOverflow))
  {
    if seg.seqNum < 0xFFFF_FFFF {
      TcpProperties.SynAckSegShape(d.tuple, d.seqBase, seg.seqNum + 1);
      TcpProperties.SynAckSegFlags(d.tuple, d.seqBase, seg.seqNum + 1);
    }
  }

  /** A block that sent its SYN and receives a segment with SYN and ACK moves to Estab. It
      returns normally exactly when neither `+ 1` overflows and the segment acknowledges
      `seq_base + 1`; it then takes the segment's number plus one as `ack_base` and writes one
      bare ACK of it, queueing nothing. */
  lemma ShakeSynSent(d: DraftData, seg: SegmentData)
    requires d.state == Tcp.SynSent && HasFlag(seg.flags, Syn) && HasFlag(seg.flags, Ack)
    ensures var st := ShakeSpec(d, seg);
            && st.d.state == Tcp.Estab
            && (st.r == Done <==>
                  seg.seqNum < 0xFFFF_FFFF && d.seqBase < 0xFFFF_FFFF && seg.ackNum == d.seqBase + 1)
            && (st.r == Done ==>
                  var a := Tcp.AckSeg(d.tuple, seg.seqNum + 1);
                  && st.d == d.(state := Tcp.Estab, ackBase := seg.seqNum + 1,
                                outbox := d.outbox + [a])
                  && a.ackNum == seg.seqNum + 1
                  && HasFlag(a.flags, Ack) && !HasFlag(a.flags, Syn) && !HasFlag(a.flags, Fin))
  {
    if seg.seqNum < 0xFFFF_FFFF {
      TcpProperties.AckSegShape(d.tuple, seg.seqNum + 1);
      TcpProperties.AckSegFlags(d.tuple, seg.seqNum + 1);
    }
  }

  /** The assertion of `send_seg` never fires inside `handle_shake`: the only segment it
      sends there carries `seq_base` itself. */
  lemma ShakeNeverBelowBase(d: DraftData, seg: SegmentData)
    ensures ShakeSpec(d, seg).r != Panicked(SeqBelowBase)
  {
    if d.state == Tcp.Listen && HasFlag(seg.flags, Syn) && seg.seqNum < 0xFFFF_FFFF {
      TcpProperties.SynAckSegShape(d.tuple, d.seqBase, seg.seqNum + 1);
    }
  }

  /** No transition of `handle_shake` reaches Closed, so the loop of `run_tcp` never ends
      normally from an open block: it runs until a panic, at the latest when the inputs run
      out. */
  lemma {:induction false} LoopNeverReturns(d: DraftData, segs: seq<SegmentData>)
    requires d.state != Tcp.Closed
    ensures LoopSpec(d, segs).r != Done
    decreases |segs|
  {
    if segs != [] {
      var s := ShakeSpec(d, segs[0]);
      if s.r == Done {
        LoopNeverReturns(s.d, segs[1..]);
      }
    }
  }

  lemma RunNeverReturns(d: DraftData, sendSyn: bool, segs: seq<SegmentData>)
    requires d.state != Tcp.Closed
    ensures RunSpec(d, sendSyn, segs).r != Done
  {
    LoopNeverReturns(if sendSyn then QueueSynSpec(d) else d, segs);
  }

  /** `run_tcp(true)` queues one SYN, with `seq_base` as its number, for retransmission, but
      writes nothing to the socket and stays in its state. */
  lemma QueuedSyn(d: DraftData)
    ensures var q := QueueSynSpec(d);
            && q.state == d.state && q.outbox == d.outbox && |q.unacked| == |d.unacked| + 1
            && q.unacked[..|d.unacked|] == d.unacked
            && var s := q.unacked[|d.unacked|];
               s.seqNum == d.seqBase && s.ackNum == 0
               && HasFlag(s.flags, Syn) && !HasFlag(s.flags, Ack) && !HasFlag(s.flags, Fin)
  {
    TcpProperties.SynSegShape(d.tuple, d.seqBase);
    TcpProperties.SynSegFlags(d.tuple, d.seqBase);
  }

  /** The two blocks have the same handshake fields. */
  predicate SameShake(d: DraftData, td: Tcp.TcbData) {
    && d.tuple == td.tuple && d.state == td.state && d.seqBase == td.seqBase
    && d.ackBase == td.ackBase && d.unacked == td.unacked && d.outbox == td.outbox
  }

  /** On a SYN whose number has a successor below 2^32, a listening draft block does what the
      `handle_shake` of module Tcp does. */
  lemma ListenAgrees(d: DraftData, td: Tcp.TcbData, seg: SegmentData)
    requires Tcp.WellFormed(td) && SameShake(d, td) && d.state == Tcp.Listen
    requires seg.seqNum < 0xFFFF_FFFF
    ensures ShakeSpec(d, seg).r == Done && Tcp.ShakeSpec(td, seg).r == Tcp.Done
    ensures SameShake(ShakeSpec(d, seg).d, Tcp.ShakeSpec(td, seg).d)
  {
    if HasFlag(seg.flags, Syn) {
      TcpProperties.SynAckSegShape(d.tuple, d.seqBase, seg.seqNum + 1);
    }
  }

  /** On an acknowledged SYN+ACK, the draft block agrees with the block of module Tcp up to
      the point where the latter fills its send window. */
  lemma SynSentAgrees(d: DraftData, td: Tcp.TcbData, seg: SegmentData)
    requires Tcp.WellFormed(td) && SameShake(d, td) && d.state == Tcp.SynSent
    requires HasFlag(seg.flags, Syn) && HasFlag(seg.flags, Ack)
    requires seg.seqNum < 0xFFFF_FFFF && d.seqBase < 0xFFFF_FFFF && seg.ackNum == d.seqBase + 1
    ensures var a := Tcp.AckSeg(td.tuple, Wrap32(seg.seqNum + 1));
            var e := td.(state := Tcp.Estab, ackBase := Wrap32(seg.seqNum + 1),
                         outbox := td.outbox + [a]);
            && ShakeSpec(d, seg).r == Done
            && Tcp.ShakeSpec(td, seg) == Tcp.FillSpec(e)
            && SameShake(ShakeSpec(d, seg).d, e)
  {
  }
}
