/** The TPP client of tpp-client/tpp-client-connect-2stu.c: the global control block
    `g_client_tcb`, the two segment builders, the client state machine, the checksum gate in
    front of it, and the active open `tpp_connect`.

    The control block is a `ClientTcb` object. The socket is its `sent` field, which collects
    the datagrams written to it; whether a `sendto` or `recvfrom` succeeds, and what the server
    replies, are parameters. Header buffers are arrays of bytes written in place through the
    setters of module TppHeader, in the host's byte order `host`. */
module TppClient {
  import opened Bits
  import opened Bytes
  import opened Checksum
  import opened TppHeader
  import opened TppFsm

  /** `MAX_BUF_LEN` of tpp-client/tpp_app.h: the size of the receive buffer. */
  const MaxBufLen: nat := 65536

  /** The fields of `g_client_tcb` the client uses. */
  datatype ClientData = ClientData(
    state: int, iss: u32, irs: u32, rcvNxt: u32, localPort: u16, remotePort: u16,
    sent: seq<seq<u8>>)

  /** The control block after a call, and the call's return value. */
  datatype ClientStep = ClientStep(d: ClientData, r: int)

  function Min(a: nat, b: nat): (m: nat)
    ensures m <= a && m <= b && (m == a || m == b)
  {
    if a <= b then a else b
  }

  // ---------------------------------------------------------------------------------------
  // The segments, as header values

  /** A header with `checksum1` of its host-order bytes stored in its checksum field. */
  function Sealed(h: TppHdr, host: ByteOrder): TppHdr {
    h.(checksum := Checksum1(Layout(h, host), host))
  }

  /** The header `create_SYN_h` builds on a fresh header from `init_seg_hdr_h`. */
  function SynHdr(localPort: u16, remotePort: u16, iss: u32, host: ByteOrder): TppHdr {
    Sealed(InitHdr(localPort, remotePort).(seqNum := iss, flags := ThSyn), host)
  }

  /** The header `create_ACK_h` builds on a fresh header from `init_seg_hdr_h`. */
  function AckHdr(localPort: u16, remotePort: u16, rcvNxt: u32, host: ByteOrder): TppHdr {
    Sealed(InitHdr(localPort, remotePort).(ackNum := rcvNxt, flags := ThAck), host)
  }

  /** The datagram carrying the client's SYN: the header in network order. */
  function SynWire(d: ClientData, host: ByteOrder): seq<u8> {
    Layout(SynHdr(d.localPort, d.remotePort, d.iss, host), BigEndian)
  }

  /** The datagram carrying the client's ACK. */
  function AckWire(d: ClientData, host: ByteOrder): seq<u8> {
    Layout(AckHdr(d.localPort, d.remotePort, d.rcvNxt, host), BigEndian)
  }

  // ---------------------------------------------------------------------------------------
  // The builders, on buffer contents

  /** `checksum1` over the first `th_sz_seg` bytes, stored with `set_seg_checksum_h`. */
  function SealBytes(b: seq<u8>, host: ByteOrder): (r: seq<u8>)
    requires |b| >= TpphdrLen && View(b, host).szSeg <= |b|
    ensures |r| == |b|
  {
    Put(b, ChecksumAt, Bytes16(Checksum1(b[..View(b, host).szSeg], host), host))
  }

  /** `create_SYN_h`: sequence number `iss`, flags exactly TH_SYN, then the checksum. */
  function CreateSynBytes(b: seq<u8>, iss: u32, host: ByteOrder): (r: seq<u8>)
    requires |b| >= TpphdrLen && View(b, host).szSeg <= |b|
    ensures |r| == |b|
  {
    var b1 := Put(b, SeqAt, Bytes32(iss, host));
    SetSeqView(b, iss, host);
    var b2 := Put(b1, FlagsAt, [ThSyn]);
    SetFlagsView(b1, ThSyn, host);
    SealBytes(b2, host)
  }

  /** `create_ACK_h`: acknowledgement number `rcvNxt`, flags exactly TH_ACK, then the checksum. */
  function CreateAckBytes(b: seq<u8>, rcvNxt: u32, host: ByteOrder): (r: seq<u8>)
    requires |b| >= TpphdrLen && View(b, host).szSeg <= |b|
    ensures |r| == |b|
  {
    var b1 := Put(b, AckAt, Bytes32(rcvNxt, host));
    SetAckView(b, rcvNxt, host);
    var b2 := Put(b1, FlagsAt, [ThAck]);
    SetFlagsView(b1, ThAck, host);
    SealBytes(b2, host)
  }

  // ---------------------------------------------------------------------------------------
  // The client, on values

  /** `client_fsm` on the header `h` the buffer holds, `sendOk` telling whether `sendto`
      writes the ACK. */
  function FsmSpec(d: ClientData, h: TppHdr, sendOk: bool, host: ByteOrder): ClientData {
    if d.state == TppsSynSent && h.flags == ThSynAck then AcceptSpec(d, h.seqNum, sendOk, host)
    else d
  }

  /** The SYN_SENT branch of `client_fsm` on a SYN-ACK whose sequence number is `seqNum`. */
  function AcceptSpec(d: ClientData, seqNum: u32, sendOk: bool, host: ByteOrder): ClientData {
    var d1 := d.(irs := seqNum, rcvNxt := Wrap32(seqNum as int + 1));
    d1.(sent := d.sent + (if sendOk then [AckWire(d1, host)] else []), state := TppsEstablished)
  }

  /** `process_segment_client` on the buffer `b` holding a segment of `len` bytes. */
  function ProcessSpec(d: ClientData, b: seq<u8>, len: nat, sendOk: bool, host: ByteOrder): ClientStep
    requires |b| >= TpphdrLen && len <= |b|
  {
    if !VerifyChecksum1(b[..len], host) then ClientStep(d, -1)
    else ClientStep(FsmSpec(d, View(b, host), sendOk, host), 0)
  }

  /** What the stack array `buf` of `tpp_connect` holds before `recvfrom`: the given bytes, 0
      past their end. */
  function StaleBuf(stale: seq<u8>): (b: seq<u8>)
    ensures |b| == MaxBufLen
  {
    seq(MaxBufLen, i => if 0 <= i < |stale| then stale[i] else 0)
  }

  /** The array `buf` of `tpp_connect` after `recvfrom` has copied the datagram `w` to its
      front and the `_DEBUG_` build, which the client is compiled as, has stored the
      terminating 0 right after it. */
  function Received(stale: seq<u8>, w: seq<u8>): (b: seq<u8>)
    requires |w| < MaxBufLen
    ensures |b| == MaxBufLen && b[..|w|] == w && b[|w|] == 0
    ensures forall i :: |w| < i < MaxBufLen ==> b[i] == StaleBuf(stale)[i]
  {
    Put(Put(StaleBuf(stale), 0, w), |w|, [0])
  }

  /** `tpp_connect`: `synOk` and `ackOk` tell whether the two `sendto` calls succeed,
      `recvOk` whether `recvfrom` does, and `reply` is the datagram it receives. */
  function ConnectSpec(d: ClientData, synOk: bool, recvOk: bool, reply: seq<u8>, stale: seq<u8>,
                       ackOk: bool, host: ByteOrder): ClientStep
  {
    if !synOk then ClientStep(d, -1)
    else
      var d1 := d.(sent := d.sent + [SynWire(d, host)], state := TppsSynSent);
      if !recvOk then ClientStep(d1, -1)
      else
        var n := Min(|reply|, MaxBufLen - 1);
        ProcessSpec(d1, NtohBytes(Received(stale, reply[..n]), host), n, ackOk, host)
  }

  // ---------------------------------------------------------------------------------------
  // Facts the methods need

  /** The checksum field of a header at its place in the layout. */
  lemma LayoutSplit(h: TppHdr, order: ByteOrder)
    ensures var pre := Layout(h, order)[..ChecksumAt];
            && |pre| == ChecksumAt
            && Layout(h, order) == pre + Bytes16(h.checksum, order) + []
            && Layout(h.(checksum := 0), order) == pre + Bytes16(0, order) + []
  {
    var pre := Bytes16(h.sport, order) + Bytes16(h.dport, order) + Bytes32(h.szSeg, order)
               + Bytes32(h.seqNum, order) + Bytes32(h.ackNum, order) + [h.flags, h.x];
    assert Layout(h, order) == pre + Bytes16(h.checksum, order);
    assert Layout(h, order)[..ChecksumAt] == pre;
  }

  /** A 16-bit value laid out in an order is read back as one word in that order. */
  lemma WordOfBytes16(v: u16, order: ByteOrder)
    ensures Word(Bytes16(v, order)[0], Bytes16(v, order)[1], order) == v
  {
  }

  /** Storing `checksum1` of a header whose checksum field is 0 makes it pass
      `verify_checksum1`. */
  lemma SealedVerifies(h: TppHdr, host: ByteOrder)
    requires h.checksum == 0
    ensures VerifyChecksum1(Layout(Sealed(h, host), host), host)
  {
    var s := Sealed(h, host);
    var c := s.checksum;
    LayoutSplit(s, host);
    var pre := Layout(s, host)[..ChecksumAt];
    assert s.(checksum := 0) == h;
    TotalWithField(pre, 0, host);
    TotalWithField(pre, c, host);
    NormComplement(Total(Words(pre, host)));
  }

  /** The word sum of an even-length prefix followed by one 16-bit field is the prefix's sum
      plus the field's value. */
  lemma TotalWithField(pre: seq<u8>, v: u16, host: ByteOrder)
    requires |pre| % 2 == 0
    ensures Total(Words(pre + Bytes16(v, host) + [], host)) == Total(Words(pre, host)) + v
  {
    var b := Bytes16(v, host);
    assert b == [b[0], b[1]];
    TotalAroundWord(pre, b[0], b[1], [], host);
    WordOfBytes16(v, host);
  }

  /** The builder on a buffer whose header `init_seg_hdr_h` just wrote gives the SYN header,
      whatever the buffer holds past the header. */
  lemma SynBuilt(b: seq<u8>, d: ClientData, host: ByteOrder)
    requires |b| >= TpphdrLen && View(b, host) == InitHdr(d.localPort, d.remotePort)
    ensures View(CreateSynBytes(b, d.iss, host), host) == SynHdr(d.localPort, d.remotePort, d.iss, host)
  {
    var h := InitHdr(d.localPort, d.remotePort).(seqNum := d.iss, flags := ThSyn);
    var b1 := Put(b, SeqAt, Bytes32(d.iss, host));
    SetSeqView(b, d.iss, host);
    var b2 := Put(b1, FlagsAt, [ThSyn]);
    SetFlagsView(b1, ThSyn, host);
    LayoutView(b2, host);
    assert b2[..View(b2, host).szSeg] == Layout(h, host);
    SetChecksumView(b2, Checksum1(Layout(h, host), host), host);
  }

  /** The same for the ACK. */
  lemma AckBuilt(b: seq<u8>, d: ClientData, host: ByteOrder)
    requires |b| >= TpphdrLen && View(b, host) == InitHdr(d.localPort, d.remotePort)
    ensures View(CreateAckBytes(b, d.rcvNxt, host), host)
            == AckHdr(d.localPort, d.remotePort, d.rcvNxt, host)
  {
    var h := InitHdr(d.localPort, d.remotePort).(ackNum := d.rcvNxt, flags := ThAck);
    var b1 := Put(b, AckAt, Bytes32(d.rcvNxt, host));
    SetAckView(b, d.rcvNxt, host);
    var b2 := Put(b1, FlagsAt, [ThAck]);
    SetFlagsView(b1, ThAck, host);
    LayoutView(b2, host);
    assert b2[..View(b2, host).szSeg] == Layout(h, host);
    SetChecksumView(b2, Checksum1(Layout(h, host), host), host);
  }

  /** After `hton_seg` on a buffer holding the header `h` of one bare header's size, the
      `ntohl(th_sz_seg)` bytes to send are `h` laid out in network order. */
  lemma WireOf(c: seq<u8>, h: TppHdr, host: ByteOrder)
    requires |c| >= TpphdrLen && View(c, host) == h && h.szSeg == TpphdrLen
    ensures var o := HtonBytes(c, host);
            View(o, BigEndian).szSeg == TpphdrLen && o[..TpphdrLen] == Layout(h, BigEndian)
  {
    HtonView(c, host);
  }

  /** Receiving `w` and converting the buffer with `ntoh_seg` leaves the converted `w` in the
      first `|w|` bytes, when `w` holds a whole header. */
  lemma ReceivedPrefix(stale: seq<u8>, w: seq<u8>, host: ByteOrder)
    requires TpphdrLen <= |w| < MaxBufLen
    ensures NtohBytes(Received(stale, w), host)[..|w|] == NtohBytes(w, host)
    ensures View(NtohBytes(Received(stale, w), host), host) == View(w, BigEndian)
  {
    var b := Received(stale, w);
    assert b[..TpphdrLen] == w[..TpphdrLen];
    ViewPrefix(b, w, BigEndian);
    NtohView(b, host);
    assert b[TpphdrLen..|w|] == w[TpphdrLen..];
  }

  // ---------------------------------------------------------------------------------------
  // The control block

  class ClientTcb {
    /** The byte order of the machine the client runs on. */
    const host: ByteOrder
    var tState: int
    var iss: u32
    var irs: u32
    var rcvNxt: u32
    var localPort: u16
    var remotePort: u16
    /** The datagrams written to the socket, oldest first. */
    var sent: seq<seq<u8>>

    function Data(): ClientData
      reads this
    {
      ClientData(tState, iss, irs, rcvNxt, localPort, remotePort, sent)
    }

    /** The block as `main` leaves it before `tpp_connect`: CLOSED, with the initial sequence
        number and both ports chosen, nothing sent. */
    constructor (host: ByteOrder, iss: u32, localPort: u16, remotePort: u16)
      ensures this.host == host
      ensures Data() == ClientData(TppsClosed, iss, 0, 0, localPort, remotePort, [])
    {
      this.host := host;
      tState := TppsClosed;
      this.iss := iss;
      irs, rcvNxt := 0, 0;
      this.localPort, this.remotePort := localPort, remotePort;
      sent := [];
    }

    /** `create_SYN_h`. */
    method CreateSynH(p: array<u8>)
      requires p.Length >= TpphdrLen && View(p[..], host).szSeg <= p.Length
      modifies p
      ensures p[..] == CreateSynBytes(old(p[..]), iss, host)
    {
      ghost var b := p[..];
      SetSegSeqH(p, iss, host);
      SetSeqView(b, iss, host);
      ghost var b1 := p[..];
      SetSegFlagsH(p, ThSyn);
      SetFlagsView(b1, ThSyn, host);
      var checksum := Checksum1(p[..View(p[..], host).szSeg], host);
      SetSegChecksumH(p, checksum, host);
    }

    /** `create_ACK_h`. */
    method CreateAckH(p: array<u8>)
      requires p.Length >= TpphdrLen && View(p[..], host).szSeg <= p.Length
      modifies p
      ensures p[..] == CreateAckBytes(old(p[..]), rcvNxt, host)
    {
      ghost var b := p[..];
      SetSegAckH(p, rcvNxt, host);
      SetAckView(b, rcvNxt, host);
      ghost var b1 := p[..];
      SetSegFlagsH(p, ThAck);
      SetFlagsView(b1, ThAck, host);
      var checksum := Checksum1(p[..View(p[..], host).szSeg], host);
      SetSegChecksumH(p, checksum, host);
    }

    /** The SYN of `tpp_connect`: built on a fresh 21-byte buffer, converted to network order,
        and the `ntohl(th_sz_seg)` bytes `sendto` is given. */
    method SynDatagram() returns (datagram: seq<u8>)
      ensures datagram == SynWire(Data(), host)
    {
      var p := new u8[TpphdrLen + 1];
      ghost var b0 := p[..];
      InitSegHdrH(p, localPort, remotePort, host);
      InitView(b0, localPort, remotePort, host);
      ghost var b := p[..];
      CreateSynH(p);
      SynBuilt(b, Data(), host);
      ghost var c := p[..];
      HtonSeg(p, host);
      WireOf(c, SynHdr(localPort, remotePort, iss, host), host);
      var n := View(p[..], BigEndian).szSeg;
      datagram := p[..n];
    }

    /** The ACK of `client_fsm`, built the same way. */
    method AckDatagram() returns (datagram: seq<u8>)
      ensures datagram == AckWire(Data(), host)
    {
      var p := new u8[TpphdrLen + 1];
      ghost var b0 := p[..];
      InitSegHdrH(p, localPort, remotePort, host);
      InitView(b0, localPort, remotePort, host);
      ghost var b := p[..];
      CreateAckH(p);
      AckBuilt(b, Data(), host);
      ghost var c := p[..];
      HtonSeg(p, host);
      WireOf(c, AckHdr(localPort, remotePort, rcvNxt, host), host);
      var n := View(p[..], BigEndian).szSeg;
      datagram := p[..n];
    }

    /** `client_fsm`. Its result is always 0: a wrong segment is ignored, and the failure
        branch after `sendto` cannot be taken because `sentlen` is unsigned. */
    method ClientFsm(buf: array<u8>, len: nat, sendOk: bool) returns (r: int)
      requires buf.Length >= TpphdrLen
      modifies this
      ensures r == 0 && Data() == FsmSpec(old(Data()), View(buf[..], host), sendOk, host)
    {
      r := 0;
      if tState == TppsSynSent {
        if buf[FlagsAt] != ThSynAck {
          return;
        }
        var seqNum := View(buf[..], host).seqNum;
        AcceptSynAck(seqNum, sendOk);
      }
    }

    /** The SYN_SENT branch of `client_fsm`: record the peer's sequence number, send the ACK
        and enter ESTABLISHED. */
    method AcceptSynAck(seqNum: u32, sendOk: bool)
      modifies this
      ensures Data() == AcceptSpec(old(Data()), seqNum, sendOk, host)
    {
      irs := seqNum;
      rcvNxt := Wrap32(seqNum as int + 1);
      var ack := AckDatagram();
      if sendOk {
        sent := sent + [ack];
      }
      tState := TppsEstablished;
    }

    /** `process_segment_client`. */
    method ProcessSegmentClient(buf: array<u8>, len: nat, sendOk: bool) returns (r: int)
      requires buf.Length >= TpphdrLen && len <= buf.Length
      modifies this
      ensures ClientStep(Data(), r) == ProcessSpec(old(Data()), buf[..], len, sendOk, host)
    {
      if !VerifyChecksum1(buf[..len], host) {
        return -1;
      }
      r := ClientFsm(buf, len, sendOk);
    }

    /** `tpp_connect`. */
    method TppConnect(synOk: bool, recvOk: bool, reply: seq<u8>, stale: seq<u8>, ackOk: bool)
      returns (r: int)
      modifies this
      ensures ClientStep(Data(), r) == ConnectSpec(old(Data()), synOk, recvOk, reply, stale, ackOk, host)
    {
      var syn := SynDatagram();
      if !synOk {
        return -1;
      }
      sent := sent + [syn];
      tState := TppsSynSent;
      var buf := new u8[MaxBufLen](i => if 0 <= i < |stale| then stale[i] else 0);
      assert buf[..] == StaleBuf(stale);
      if !recvOk {
        return -1;
      }
      var recvlen := Min(|reply|, MaxBufLen - 1);
      Write(buf, 0, reply[..recvlen]);
      Write(buf, recvlen, [0]);
      assert buf[..] == Received(stale, reply[..recvlen]);
      NtohSeg(buf, host);
      r := ProcessSegmentClient(buf, recvlen, ackOk);
    }
  }
}
