/** The Rust segment image of src/segment.rs and the C `struct tpphdr` of tpp-client/tpp.h
    describe the same twenty header bytes on the wire: the same fields in the same order and
    widths, all in network order, with the Rust 16-bit flags word covering the C flags byte
    and the unused byte after it. */
module Interop {
  import opened Bits
  import opened Bytes
  import opened Checksum
  import opened Segment
  import opened TppHeader
  import opened TppClient

  /** The C flag that has the meaning of a Rust flag. */
  function TppFlag(f: Flag): (b: u8)
    ensures b == Pow2(FlagBit(f) - 8)
  {
    FlagBits();
    match f
    case Syn => ThSyn
    case Ack => ThAck
    case Fin => ThFin
  }

  /** Shifting right by j and then by k is shifting right by k + j. */
  lemma {:induction false} ShiftedDiv(x: nat, j: nat, k: nat)
    ensures x / Pow2(k + j) == (x / Pow2(j)) / Pow2(k)
    decreases j
  {
    if j > 0 {
      var half: nat := x / 2;
      ShiftedDiv(half, j - 1, k);
      DivTwice(x, k + j - 1);
      DivTwice(x, j - 1);
    }
  }

  /** A segment serialised by `to_byte_vec`, read as a `struct tpphdr` in network order, has
      the same ports, size and numbers; the high byte of the flags word is `th_flags`, its low
      byte `th_x`. */
  lemma RustImageAsTppHeader(s: SegmentData)
    ensures View(ToBytes(s), BigEndian)
            == TppHdr(s.srcPort, s.dstPort, s.segSize, s.seqNum, s.ackNum, s.flags / 256,
                      s.flags % 256, s.checksum)
  {
    ToBytesFields(s);
    var b := ToBytes(s);
    assert b[16..18] == U16ToU8(s.flags);
  }

  /** A TPP header laid out in network order and read by `from_buf` gives the same ports,
      size and numbers, a flags word of `th_flags` and `th_x`, and the checksum. */
  lemma TppWireAsRustSegment(h: TppHdr, payload: seq<u8>)
    ensures FromBytes(Layout(h, BigEndian) + payload)
            == SegmentData(h.sport, h.dport, h.szSeg, h.seqNum, h.ackNum, h.flags * 256 + h.x,
                           h.checksum, payload)
  {
    var b := Layout(h, BigEndian) + payload;
    ViewLayout(h, BigEndian);
    assert b[..TpphdrLen] == Layout(h, BigEndian);
    ViewPrefix(b, Layout(h, BigEndian), BigEndian);
  }

  /** Rust flag bits 15, 14 and 13 (SYN, ACK, FIN) land on bits 7, 6 and 5 of byte 16, which
      are TH_SYN, TH_ACK and TH_FIN of `th_flags`. */
  lemma FlagsCoincide(s: SegmentData, f: Flag)
    ensures HasFlag(s.flags, f) <==> Bit(ToBytes(s)[FlagsAt], FlagBit(f) - 8)
    ensures Bit(TppFlag(f), FlagBit(f) - 8)
  {
    RustImageAsTppHeader(s);
    Pow2Values();
    ShiftedDiv(s.flags, 8, FlagBit(f) - 8);
    FlagBits();
  }

  // ---------------------------------------------------------------------------------------
  // The C client's checksum as the Rust segment sees it

  /** A 16-bit field laid out in an order is one word of that order. */
  lemma Total16(v: u16, order: ByteOrder)
    ensures Total(Words(Bytes16(v, order), order)) == v
  {
    var b := Bytes16(v, order);
    assert Words(b, order) == [Word(b[0], b[1], order)];
  }

  /** A 32-bit field laid out in an order is its two halves, as words of that order. */
  lemma Total32(v: u32, order: ByteOrder)
    ensures Total(Words(Bytes32(v, order), order)) == v / 0x1_0000 + v % 0x1_0000
  {
    var b := Bytes32(v, order);
    var w0, w1 := Word(b[0], b[1], order), Word(b[2], b[3], order);
    assert Words(b, order) == [w0] + Words(b[2..], order);
    assert Words(b[2..], order) == [w1];
    assert Total([w0, w1]) == w0 + Total([w1]);
    Halves(v);
    assert w0 + w1 == v / 0x1_0000 + v % 0x1_0000;
  }

  /** The bytes of a 32-bit value, two at a time, make its high and its low half. */
  lemma Halves(v: u32)
    ensures (v / 0x100_0000) * 0x100 + (v / 0x1_0000) % 0x100 == v / 0x1_0000
    ensures ((v / 0x100) % 0x100) * 0x100 + v % 0x100 == v % 0x1_0000
  {
    var hi, lo := v / 0x1_0000, v % 0x1_0000;
    DivSplit(v, 0x1_0000);
    DivSplit(hi, 0x100);
    DivSplit(lo, 0x100);
    DivUnique(v, 0x100_0000, hi / 0x100, (hi % 0x100) * 0x1_0000 + lo);
    DivUnique(v, 0x100, 0x100 * hi + lo / 0x100, lo % 0x100);
    DivUnique(0x100 * hi + lo / 0x100, 0x100, hi, lo / 0x100);
  }

  /** The words of every header field but the flags byte, the unused byte and the checksum;
      they are the same in either byte order. */
  function FieldSum(h: TppHdr): nat {
    h.sport + h.dport + h.szSeg / 0x1_0000 + h.szSeg % 0x1_0000 + h.seqNum / 0x1_0000
      + h.seqNum % 0x1_0000 + h.ackNum / 0x1_0000 + h.ackNum % 0x1_0000
  }

  /** The plain total of a laid-out header: the fields, the word the flags byte makes with the
      unused byte in that order, and the checksum. */
  lemma LayoutTotal(h: TppHdr, order: ByteOrder)
    ensures Total(Words(Layout(h, order), order))
            == FieldSum(h) + Word(h.flags, h.x, order) + h.checksum
  {
    var fixed := Bytes16(h.sport, order) + Bytes16(h.dport, order) + Bytes32(h.szSeg, order)
                 + Bytes32(h.seqNum, order) + Bytes32(h.ackNum, order);
    var tail := [h.flags, h.x] + Bytes16(h.checksum, order);
    assert Layout(h, order) == fixed + tail;
    TotalSplit(fixed, tail, order);
    FixedTotal(h, order);
    TotalSplit([h.flags, h.x], Bytes16(h.checksum, order), order);
    assert Words([h.flags, h.x], order) == [Word(h.flags, h.x, order)];
    Total16(h.checksum, order);
  }

  /** The sixteen bytes before the flags byte total the field words. */
  lemma FixedTotal(h: TppHdr, order: ByteOrder)
    ensures Total(Words(Bytes16(h.sport, order) + Bytes16(h.dport, order) + Bytes32(h.szSeg, order)
                        + Bytes32(h.seqNum, order) + Bytes32(h.ackNum, order), order))
            == FieldSum(h)
  {
    var p1, p2 := Bytes16(h.sport, order), Bytes16(h.dport, order);
    var p3, p4, p5 := Bytes32(h.szSeg, order), Bytes32(h.seqNum, order), Bytes32(h.ackNum, order);
    TotalSplit(p1 + p2 + p3 + p4, p5, order);
    TotalSplit(p1 + p2 + p3, p4, order);
    TotalSplit(p1 + p2, p3, order);
    TotalSplit(p1, p2, order);
    Total16(h.sport, order);
    Total16(h.dport, order);
    Total32(h.szSeg, order);
    Total32(h.seqNum, order);
    Total32(h.ackNum, order);
  }

  /** `validate` of src/segment.rs on a received datagram is `verify_checksum1` on its bytes
      read in network order. */
  lemma RustValidIsVerified(b: seq<u8>)
    requires |b| >= HeaderLen
    ensures IsValid(FromBytes(b)) <==> VerifyChecksum1(b, BigEndian)
  {
    ToFromBytes(b);
  }

  /** A header sealed by `checksum1` in host order and sent in network order verifies in
      network order exactly when the host is big-endian or the flags byte equals the unused
      byte: on a little-endian host the flags byte is summed as the low byte of its word, but
      on the wire it is the high byte. */
  lemma {:induction false} SealedOnWire(h: TppHdr, host: ByteOrder)
    requires h.checksum == 0
    ensures VerifyChecksum1(Layout(Sealed(h, host), BigEndian), BigEndian)
            <==> host == BigEndian || h.flags == h.x
  {
    SealedVerifies(h, host);
    if host == LittleEndian {
      var s := Sealed(h, host);
      LayoutTotal(s, LittleEndian);
      LayoutTotal(s, BigEndian);
      var a := Total(Words(Layout(s, LittleEndian), LittleEndian));
      var b := Total(Words(Layout(s, BigEndian), BigEndian));
      assert b == a + 255 * (h.flags - h.x);
      if h.flags > h.x {
        ChangeBreaksSum(a, b, 255 * (h.flags - h.x));
      } else if h.flags < h.x {
        ChangeBreaksSum(a, b, 255 * (h.x - h.flags));
      }
    }
  }

  /** The SYN and the ACK of `tpp_connect` pass `validate` of src/segment.rs exactly when
      the client runs on a big-endian host. */
  lemma ClientSegmentsOnRust(d: ClientData, host: ByteOrder)
    ensures IsValid(FromBytes(SynWire(d, host))) <==> host == BigEndian
    ensures IsValid(FromBytes(AckWire(d, host))) <==> host == BigEndian
  {
    RustValidIsVerified(SynWire(d, host));
    RustValidIsVerified(AckWire(d, host));
    SealedOnWire(InitHdr(d.localPort, d.remotePort).(seqNum := d.iss, flags := ThSyn), host);
    SealedOnWire(InitHdr(d.localPort, d.remotePort).(ackNum := d.rcvNxt, flags := ThAck), host);
  }

  /** The twenty bytes of the `checksum_tpp` test of src/segment.rs are the SYN a client on a
      little-endian host sends from port 0x93A2 to port 0x2723 with initial sequence number
      0; their network-order sum is 0x7F80, not 0xFFFF, so `validate` rejects them. */
  lemma ChecksumTppBytes(b: seq<u8>, d: ClientData)
    requires b == [147, 162, 39, 35, 0, 0, 0, 20, 0, 0, 0, 0, 0, 0, 0, 0, 128, 0, 68, 166]
    requires d.localPort == 0x93A2 && d.remotePort == 0x2723 && d.iss == 0
    ensures b == SynWire(d, LittleEndian)
    ensures OnesComplementSum(b) == 0x7F80 && !IsValid(FromBytes(b))
  {
    var h := InitHdr(d.localPort, d.remotePort).(seqNum := d.iss, flags := ThSyn);
    var s := TppHdr(0x93A2, 0x2723, 20, 0, 0, 128, 0, 0x44A6);
    TestSynSealed(h, s);
    TestSynLayout(s, b);
    LayoutTotal(s, BigEndian);
    var u := Total(Words(b, BigEndian));
    SumOf(u);
    RustValidIsVerified(b);
  }

  /** The checksum a little-endian client computes for that SYN is 0x44A6. */
  lemma TestSynSealed(h: TppHdr, s: TppHdr)
    requires h == TppHdr(0x93A2, 0x2723, 20, 0, 0, 128, 0, 0)
    requires s == TppHdr(0x93A2, 0x2723, 20, 0, 0, 128, 0, 0x44A6)
    ensures Sealed(h, LittleEndian) == s
  {
    LayoutTotal(h, LittleEndian);
    var t := Total(Words(Layout(h, LittleEndian), LittleEndian));
    assert t == 47961;
    NormSmall(t);
  }

  lemma TestSynLayout(s: TppHdr, b: seq<u8>)
    requires s == TppHdr(0x93A2, 0x2723, 20, 0, 0, 128, 0, 0x44A6)
    requires b == [147, 162, 39, 35, 0, 0, 0, 20, 0, 0, 0, 0, 0, 0, 0, 0, 128, 0, 68, 166]
    ensures b == Layout(s, BigEndian)
  {
  }

  lemma SumOf(u: nat)
    requires u == 0x93A2 + 0x2723 + 20 / 0x1_0000 + 20 % 0x1_0000 + 0x8000 + 0x44A6
    ensures Norm(u) == 0x7F80
  {
    DivUnique(u - 1, M, 1, 0x7F80 - 1);
  }

  /** The SYN with its checksum taken the intended way: `checksum1` over the header once
      `hton_seg` has put it in network order, stored in host order by `set_seg_checksum_h`. */
  function WireSealedSyn(d: ClientData, host: ByteOrder): (w: seq<u8>)
    ensures |w| == TpphdrLen
  {
    var net := Layout(InitHdr(d.localPort, d.remotePort).(seqNum := d.iss, flags := ThSyn), BigEndian);
    Put(net, ChecksumAt, Bytes16(Checksum1(net, host), host))
  }

  /** Complementing a word commutes with swapping its bytes. */
  lemma ComplementSwap(s: u16)
    ensures 0xFFFF - Swap16(s) == Swap16(0xFFFF - s)
  {
    var hi, lo := s / 256, s % 256;
    DivUnique(0xFFFF - s, 256, 255 - hi, 255 - lo);
  }

  /** The checksum computed and stored in host order lands on the wire as the bytes that a
      big-endian host computes. */
  lemma HostChecksumBytes(b: seq<u8>, host: ByteOrder)
    ensures Bytes16(Checksum1(b, host), host) == Bytes16(Checksum1(b, BigEndian), BigEndian)
  {
    if host == LittleEndian {
      ByteOrderIndependence(b);
      ComplementSwap(OnesSum(b, BigEndian));
    }
  }

  /** With the checksum taken over the network-order bytes, the SYN passes `validate` of
      src/segment.rs and `verify_checksum1` before `ntoh_seg` on either host, and the Rust
      segment reads its ports, sequence number and SYN flag. */
  lemma WireSealedSynAccepted(d: ClientData, host: ByteOrder, other: ByteOrder)
    ensures var w := WireSealedSyn(d, host);
            var s := FromBytes(w);
            && IsValid(s) && VerifyChecksum1(w, other)
            && s.srcPort == d.localPort && s.dstPort == d.remotePort && s.segSize == TpphdrLen
            && s.seqNum == d.iss && HasFlag(s.flags, Syn) && !HasFlag(s.flags, Ack)
  {
    var h := InitHdr(d.localPort, d.remotePort).(seqNum := d.iss, flags := ThSyn);
    var net := Layout(h, BigEndian);
    HostChecksumBytes(net, host);
    var c := Checksum1(net, BigEndian);
    LayoutSplit(h.(checksum := c), BigEndian);
    var w := WireSealedSyn(d, host);
    assert w == Layout(Sealed(h, BigEndian), BigEndian);
    SealedVerifies(h, BigEndian);
    RustValidIsVerified(w);
    VerifyIndependentOfOrder(w);
    TppWireAsRustSegment(Sealed(h, BigEndian), []);
    assert w + [] == w;
    FlagsCoincide(FromBytes(w), Syn);
    FlagsCoincide(FromBytes(w), Ack);
    FromToBytes(FromBytes(w));
    ToFromBytes(w);
    FlagBits();
  }
}
