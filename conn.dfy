/** The connection records of src/conn/mod.rs: a tuple naming a connection by the ports of a
    segment and the IP address it came from, and a control block that takes its id from a
    global counter. The counter, a `static mut u32` in the source, is the field of a
    `TcbRegistry` object; its `+= 1` panics on overflow (a debug build), which ends the call
    with `CountOverflow`. */
module Conn {
  import opened Bytes
  import opened Segment
  import Tcp

  datatype ConnState = Listen | SynSent | SynRecd | Estab

  datatype ConnTuple = ConnTuple(srcPort: u16, srcIp: seq<u8>, dstPort: u16)

  datatype ConnTcb = ConnTcb(id: u32, state: ConnState, tuple: ConnTuple)

  /** What `TCB::from` yields: a control block, or the panic of the counter. */
  datatype Created = Created(tcb: ConnTcb) | CountOverflow

  /** The counter after a call, and what the call yielded. */
  datatype Draw = Draw(count: u32, made: Created)

  /** `TCPTuple::from`: the ports of the segment and the IP address of the sender. */
  function TupleFrom(s: SegmentData, src: Tcp.SocketAddr): (t: ConnTuple)
    ensures t.srcPort == s.srcPort && t.dstPort == s.dstPort && t.srcIp == src.ip
  {
    ConnTuple(s.srcPort, src.ip, s.dstPort)
  }

  /** `TCB::from` with the counter at `count`: the counter goes up by one and the new block,
      listening on the tuple, takes the new value as its id. */
  function DrawSpec(count: u32, tuple: ConnTuple): (r: Draw)
    ensures r.made.Created? <==> count < 0xFFFF_FFFF
    ensures r.made.Created? ==>
              && r.count == count + 1 && r.made.tcb.id == r.count
              && r.made.tcb.state == Listen && r.made.tcb.tuple == tuple
    ensures r.made.CountOverflow? ==> r.count == count
  {
    if count + 1 >= 0x1_0000_0000 then Draw(count, CountOverflow)
    else Draw(count + 1, Created(ConnTcb(count + 1, Listen, tuple)))
  }

  /** Blocks made one after another for the given tuples, until the counter overflows. */
  function DrawAll(count: u32, tuples: seq<ConnTuple>): (r: seq<Created>)
    ensures |r| == |tuples|
    decreases |tuples|
  {
    if tuples == [] then []
    else
      var d := DrawSpec(count, tuples[0]);
      if d.made.CountOverflow? then seq(|tuples|, _ => CountOverflow)
      else [d.made] + DrawAll(d.count, tuples[1..])
  }

  /** The holder of `TCB_COUNT`. */
  class TcbRegistry {
    var tcbCount: u32

    /** The counter as the program starts. */
    constructor ()
      ensures tcbCount == 0
    {
      tcbCount := 0;
    }

    /** `TCB::from`. */
    method TcbFrom(tuple: ConnTuple) returns (made: Created)
      modifies this
      ensures Draw(tcbCount, made) == DrawSpec(old(tcbCount), tuple)
    {
      if tcbCount as int + 1 >= 0x1_0000_0000 {
        return CountOverflow;
      }
      tcbCount := tcbCount + 1;
      made := Created(ConnTcb(tcbCount, Listen, tuple));
    }
  }
}

/** What the connection records guarantee. */
module ConnProperties {
  import opened Bytes
  import opened Segment
  import opened Conn
  import Tcp

  /** The i-th block made after the counter stood at `count` gets id `count + i + 1`, listens
      on the i-th tuple, and exists exactly when that id fits in 32 bits. */
  lemma {:induction false} DrawAllNumbered(count: u32, tuples: seq<ConnTuple>)
    ensures var r := DrawAll(count, tuples);
            forall i :: 0 <= i < |r| ==>
              && (r[i].Created? <==> count + i + 1 < 0x1_0000_0000)
              && (r[i].Created? ==>
                    r[i].tcb.id == count + i + 1 && r[i].tcb.state == Listen
                    && r[i].tcb.tuple == tuples[i])
    decreases |tuples|
  {
    if tuples != [] {
      var d := DrawSpec(count, tuples[0]);
      if d.made.Created? {
        DrawAllNumbered(d.count, tuples[1..]);
        var r := DrawAll(count, tuples);
        assert r == [d.made] + DrawAll(d.count, tuples[1..]);
        forall i | 0 <= i < |r|
          ensures && (r[i].Created? <==> count + i + 1 < 0x1_0000_0000)
                  && (r[i].Created? ==>
                        r[i].tcb.id == count + i + 1 && r[i].tcb.state == Listen
                        && r[i].tcb.tuple == tuples[i])
        {
          if i > 0 {
            assert r[i] == DrawAll(d.count, tuples[1..])[i - 1];
          }
        }
      }
    }
  }

  /** No two blocks share an id. */
  lemma DrawAllDistinct(count: u32, tuples: seq<ConnTuple>)
    ensures var r := DrawAll(count, tuples);
            forall i, j :: 0 <= i < j < |r| && r[i].Created? && r[j].Created? ==>
              r[i].tcb.id != r[j].tcb.id
  {
    DrawAllNumbered(count, tuples);
  }

  /** The unit test of src/conn/mod.rs. Its segment comes from the no-argument `Segment::new()`
      of src/segment/mod.rs, which zeroes every field (the state `LegacySegment.Segment`'s
      constructor promises), so both ports are 0. The tuple of that segment received from
      0.0.0.0:8080, then two blocks from a fresh counter get ids 1 and 2, and the first
      listens. */
  lemma ConnTest(s: SegmentData, src: Tcp.SocketAddr)
    requires s == SegmentData(0, 0, 0, 0, 0, 0, 0, [])
    requires src == Tcp.SocketAddr([0, 0, 0, 0], 8080)
    ensures var t := TupleFrom(s, src);
            var d1 := DrawSpec(0, t);
            var d2 := DrawSpec(d1.count, t);
            && t == ConnTuple(0, [0, 0, 0, 0], 0)
            && d1.made.Created? && d1.made.tcb.id == 1 && d1.made.tcb.state == Listen
            && d2.made.Created? && d2.made.tcb.id == 2
  {
  }
}
