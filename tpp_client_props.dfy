/** What the TPP client guarantees: the shape of the two segments it sends, that a peer on a
    machine of the same byte order accepts them, how `client_fsm` reacts to each segment, and
    the outcomes of `tpp_connect`. */
module TppClientProperties {
  import opened Bits
  import opened Bytes
  import opened Checksum
  import opened TppHeader
  import opened TppFsm
  import opened TppClient

  /** A header laid out in network order and converted by the receiver's `ntoh_seg` is the
      header laid out in the receiver's order. */
  lemma NtohOfWire(h: TppHdr, host: ByteOrder)
    ensures NtohBytes(Layout(h, BigEndian), host) == Layout(h, host)
  {
    ViewLayout(h, BigEndian);
    assert Layout(h, host) + Layout(h, BigEndian)[TpphdrLen..] == Layout(h, host);
  }

  /** The SYN is one bare header from the local to the remote port carrying `iss` and the SYN
      flag alone; converted back to host order it passes `verify_checksum1`. */
  lemma SynWireShape(d: ClientData, host: ByteOrder)
    ensures var w := SynWire(d, host);
            var h := View(w, BigEndian);
            && |w| == TpphdrLen && h == SynHdr(d.localPort, d.remotePort, d.iss, host)
            && h.sport == d.localPort && h.dport == d.remotePort && h.szSeg == TpphdrLen
            && h.seqNum == d.iss && h.ackNum == 0 && h.flags == ThSyn && h.x == 0
            && VerifyChecksum1(NtohBytes(w, host), host)
  {
    var h := SynHdr(d.localPort, d.remotePort, d.iss, host);
    ViewLayout(h, BigEndian);
    NtohOfWire(h, host);
    SealedVerifies(InitHdr(d.localPort, d.remotePort).(seqNum := d.iss, flags := ThSyn), host);
  }

  /** The ACK is one bare header from the local to the remote port acknowledging `rcvNxt`
      with the ACK flag alone; converted back to host order it passes `verify_checksum1`. */
  lemma AckWireShape(d: ClientData, host: ByteOrder)
    ensures var w := AckWire(d, host);
            var h := View(w, BigEndian);
            && |w| == TpphdrLen && h == AckHdr(d.localPort, d.remotePort, d.rcvNxt, host)
            && h.sport == d.localPort && h.dport == d.remotePort && h.szSeg == TpphdrLen
            && h.seqNum == 0 && h.ackNum == d.rcvNxt && h.flags == ThAck && h.x == 0
            && VerifyChecksum1(NtohBytes(w, host), host)
  {
    var h := AckHdr(d.localPort, d.remotePort, d.rcvNxt, host);
    ViewLayout(h, BigEndian);
    NtohOfWire(h, host);
    SealedVerifies(InitHdr(d.localPort, d.remotePort).(ackNum := d.rcvNxt, flags := ThAck), host);
  }

  /** In SYN_SENT a segment whose flags are exactly SYN|ACK records the peer's initial sequence
      number, expects the next one (modulo 2^32), sends one ACK for it when `sendto` succeeds,
      and establishes the connection. */
  lemma FsmEstablishes(d: ClientData, h: TppHdr, sendOk: bool, host: ByteOrder)
    requires d.state == TppsSynSent && h.flags == ThSynAck
    ensures var e := FsmSpec(d, h, sendOk, host);
            && e.state == TppsEstablished && HaveRcvdSyn(e.state)
            && e.irs == h.seqNum && e.rcvNxt == (h.seqNum + 1) % 0x1_0000_0000
            && e.iss == d.iss && e.localPort == d.localPort && e.remotePort == d.remotePort
            && e.sent == d.sent + (if sendOk then [AckWire(e, host)] else [])
            && AckHdr(e.localPort, e.remotePort, e.rcvNxt, host).ackNum == e.rcvNxt
  {
  }

  /** `client_fsm` changes the control block exactly when it is in SYN_SENT and the flags are
      exactly SYN|ACK; any other segment, in any state, is ignored. */
  lemma FsmChangesOnlyOnSynAck(d: ClientData, h: TppHdr, sendOk: bool, host: ByteOrder)
    ensures FsmSpec(d, h, sendOk, host) != d <==> (d.state == TppsSynSent && h.flags == ThSynAck)
  {
  }

  /** A SYN-ACK that also carries FIN is ignored: the comparison is for equality, not for the
      two bits. */
  lemma FsmIgnoresSynAckFin(d: ClientData, h: TppHdr, sendOk: bool, host: ByteOrder)
    requires h.flags == BitOr(ThSynAck, ThFin)
    ensures FsmSpec(d, h, sendOk, host) == d
  {
    OrPow2(ThSynAck, 5);
    FlagBits();
    assert !Bit(ThSynAck, 5);
  }

  /** `process_segment_client` returns -1 and changes nothing exactly when the checksum
      fails; otherwise it runs `client_fsm` on the header the buffer holds and returns 0. */
  lemma ProcessOutcomes(d: ClientData, b: seq<u8>, len: nat, sendOk: bool, host: ByteOrder)
    requires |b| >= TpphdrLen && len <= |b|
    ensures var st := ProcessSpec(d, b, len, sendOk, host);
            && (st.r == -1 <==> !VerifyChecksum1(b[..len], host))
            && (st.r == -1 ==> st.d == d)
            && (st.r != -1 ==> st.r == 0 && st.d == FsmSpec(d, View(b, host), sendOk, host))
  {
  }

  /** `client_fsm` only appends to what was sent, and either keeps the state or establishes. */
  lemma FsmAppends(d: ClientData, h: TppHdr, sendOk: bool, host: ByteOrder)
    ensures var e := FsmSpec(d, h, sendOk, host);
            && |e.sent| >= |d.sent| && e.sent[..|d.sent|] == d.sent
            && (e.state == d.state || e.state == TppsEstablished)
  {
    var e := FsmSpec(d, h, sendOk, host);
    assert e.sent[..|d.sent|] == d.sent;
  }

  /** `process_segment_client` returns 0 or -1, only appends to what was sent, and either
      keeps the state or establishes, the latter only with result 0. */
  lemma ProcessAppends(d: ClientData, b: seq<u8>, len: nat, sendOk: bool, host: ByteOrder)
    requires |b| >= TpphdrLen && len <= |b|
    ensures var st := ProcessSpec(d, b, len, sendOk, host);
            && (st.r == 0 || st.r == -1)
            && |st.d.sent| >= |d.sent| && st.d.sent[..|d.sent|] == d.sent
            && (st.d.state == d.state || st.d.state == TppsEstablished)
            && (st.d.state != d.state ==> st.r == 0)
  {
    ProcessOutcomes(d, b, len, sendOk, host);
    FsmAppends(d, View(b, host), sendOk, host);
  }

  /** `tpp_connect` returns 0 or -1. When the SYN cannot be sent nothing changes; otherwise the
      SYN is the next datagram on the socket, and the block is left in SYN_SENT or in
      ESTABLISHED, the latter only with result 0. */
  lemma ConnectOutcomes(d: ClientData, synOk: bool, recvOk: bool, reply: seq<u8>,
                        stale: seq<u8>, ackOk: bool, host: ByteOrder)
    ensures var st := ConnectSpec(d, synOk, recvOk, reply, stale, ackOk, host);
            && (st.r == 0 || st.r == -1)
            && (!synOk ==> st == ClientStep(d, -1))
            && (!recvOk ==> st.r == -1)
            && (synOk ==> |st.d.sent| > |d.sent|
                          && st.d.sent[..|d.sent| + 1] == d.sent + [SynWire(d, host)]
                          && (st.d.state == TppsSynSent || st.d.state == TppsEstablished)
                          && (st.d.state == TppsEstablished ==> st.r == 0))
  {
    if synOk && recvOk {
      var d1 := d.(sent := d.sent + [SynWire(d, host)], state := TppsSynSent);
      var n := Min(|reply|, MaxBufLen - 1);
      var b := NtohBytes(Received(stale, reply[..n]), host);
      assert ConnectSpec(d, synOk, recvOk, reply, stale, ackOk, host) == ProcessSpec(d1, b, n, ackOk, host);
      ProcessAppends(d1, b, n, ackOk, host);
      assert |d1.sent| == |d.sent| + 1;
    }
  }

  /** A buffer that passes the checksum and holds a SYN-ACK, processed in SYN_SENT,
      establishes the connection with result 0. */
  lemma ProcessEstablishes(d: ClientData, b: seq<u8>, len: nat, sendOk: bool, host: ByteOrder)
    requires |b| >= TpphdrLen && len <= |b| && d.state == TppsSynSent
    requires View(b, host).flags == ThSynAck && VerifyChecksum1(b[..len], host)
    ensures var st := ProcessSpec(d, b, len, sendOk, host);
            && st.r == 0 && st.d.state == TppsEstablished && st.d.irs == View(b, host).seqNum
            && st.d.rcvNxt == Wrap32(View(b, host).seqNum + 1)
            && st.d.sent == d.sent + (if sendOk then [AckWire(st.d, host)] else [])
  {
    FsmEstablishes(d, View(b, host), sendOk, host);
  }

  /** A reply holding a whole header, short enough for the buffer, whose flags are exactly
      SYN|ACK and which passes `verify_checksum1` once converted to host order, establishes the
      connection: 0 is returned, the peer's sequence number is recorded, and the SYN and, when
      it can be sent, the ACK are the datagrams sent. */
  lemma ConnectHandshake(d: ClientData, reply: seq<u8>, stale: seq<u8>, ackOk: bool, host: ByteOrder)
    requires TpphdrLen <= |reply| < MaxBufLen
    requires View(reply, BigEndian).flags == ThSynAck
    requires VerifyChecksum1(NtohBytes(reply, host), host)
    ensures var st := ConnectSpec(d, true, true, reply, stale, ackOk, host);
            && st.r == 0 && st.d.state == TppsEstablished
            && st.d.irs == View(reply, BigEndian).seqNum
            && st.d.rcvNxt == Wrap32(View(reply, BigEndian).seqNum + 1)
            && st.d.sent == d.sent + [SynWire(d, host)] + (if ackOk then [AckWire(st.d, host)] else [])
  {
    var d1 := d.(sent := d.sent + [SynWire(d, host)], state := TppsSynSent);
    assert reply[..|reply|] == reply;
    ReceivedPrefix(stale, reply, host);
    ProcessEstablishes(d1, NtohBytes(Received(stale, reply), host), |reply|, ackOk, host);
  }

  /** A SYN-ACK built the way the client builds its own segments, on a machine of the same
      byte order, is accepted. */
  lemma SealedSynAckAccepted(d: ClientData, h: TppHdr, stale: seq<u8>, ackOk: bool, host: ByteOrder)
    requires h.checksum == 0 && h.flags == ThSynAck
    ensures var st := ConnectSpec(d, true, true, Layout(Sealed(h, host), BigEndian), stale, ackOk, host);
            && st.r == 0 && st.d.state == TppsEstablished && st.d.irs == h.seqNum
  {
    var s := Sealed(h, host);
    ViewLayout(s, BigEndian);
    NtohOfWire(s, host);
    SealedVerifies(h, host);
    ConnectHandshake(d, Layout(s, BigEndian), stale, ackOk, host);
  }

  /** A reply that fails the checksum leaves the block in SYN_SENT with only the SYN sent. */
  lemma ConnectRejectsCorrupt(d: ClientData, reply: seq<u8>, stale: seq<u8>, ackOk: bool, host: ByteOrder)
    requires TpphdrLen <= |reply| < MaxBufLen
    requires !VerifyChecksum1(NtohBytes(reply, host), host)
    ensures ConnectSpec(d, true, true, reply, stale, ackOk, host)
            == ClientStep(d.(sent := d.sent + [SynWire(d, host)], state := TppsSynSent), -1)
  {
    assert reply[..|reply|] == reply;
    ReceivedPrefix(stale, reply, host);
  }

  /** The converse fails: a reply that passes the checksum but is not exactly a SYN-ACK is
      ignored by `client_fsm`, whose result 0 `tpp_connect` returns, so the call reports
      success with the block still in SYN_SENT. */
  lemma ConnectZeroWithoutSynAck(d: ClientData, reply: seq<u8>, stale: seq<u8>, ackOk: bool,
                                 host: ByteOrder)
    requires TpphdrLen <= |reply| < MaxBufLen
    requires View(reply, BigEndian).flags != ThSynAck
    requires VerifyChecksum1(NtohBytes(reply, host), host)
    ensures ConnectSpec(d, true, true, reply, stale, ackOk, host)
            == ClientStep(d.(sent := d.sent + [SynWire(d, host)], state := TppsSynSent), 0)
  {
    assert reply[..|reply|] == reply;
    ReceivedPrefix(stale, reply, host);
  }

  /** A reply that ends right before the flags byte: the terminating 0 of the `_DEBUG_` build
      lands on `th_flags`, so `client_fsm` sees no flag, and the client stays in SYN_SENT with
      only the SYN sent, whatever the rest of the buffer held. */
  lemma ConnectShortReply(d: ClientData, reply: seq<u8>, stale: seq<u8>, ackOk: bool, host: ByteOrder)
    requires |reply| == FlagsAt
    ensures View(NtohBytes(Received(stale, reply), host), host).flags == 0
    ensures ConnectSpec(d, true, true, reply, stale, ackOk, host).d
            == d.(sent := d.sent + [SynWire(d, host)], state := TppsSynSent)
  {
    var b := Received(stale, reply);
    assert reply[..|reply|] == reply;
    NtohView(b, host);
    assert View(b, BigEndian).flags == b[FlagsAt] == 0;
  }
}
