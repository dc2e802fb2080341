/** The TPP segment header of tpp-client/tpp.h: `struct tpphdr`, twenty bytes holding source
    and destination port (16 bits each), segment size, sequence and acknowledgement number
    (32 bits each), a flags byte whose top three bits are SYN, ACK and FIN, an unused byte and
    a 16-bit checksum.

    The C code reads and writes the header in place through a `struct tpphdr *` into a byte
    buffer, so memory holds every multi-byte field in the host's byte order; `hton_seg` and
    `ntoh_seg` rewrite the buffer between host and network (big-endian) order. tpp.h only
    declares the setters and the converters; here each of them writes exactly its field, and
    the converters are defined as reading every field in one order and writing it in the
    other, which makes them undo each other. */
module TppHeader {
  import opened Bits
  import opened Bytes

  /** `TPPHDR_LEN`, `sizeof(struct tpphdr)`: the fields pack without padding. */
  const TpphdrLen: nat := 20

  const ThSyn: u8 := 0x80
  const ThAck: u8 := 0x40
  const ThFin: u8 := 0x20
  /** `TH_SYN|TH_ACK`, the flags of a SYN-ACK (see `FlagsDisjoint`). */
  const ThSynAck: u8 := 0xC0

  /** The field offsets of `struct tpphdr`. */
  const SportAt: nat := 0
  const DportAt: nat := 2
  const SzSegAt: nat := 4
  const SeqAt: nat := 8
  const AckAt: nat := 12
  const FlagsAt: nat := 16
  const XAt: nat := 17
  const ChecksumAt: nat := 18

  /** The field values of a header, as the host reads them through the struct. */
  datatype TppHdr = TppHdr(
    sport: u16, dport: u16, szSeg: u32, seqNum: u32, ackNum: u32, flags: u8, x: u8, checksum: u16)

  // ---------------------------------------------------------------------------------------
  // Multi-byte fields in memory

  function Bytes16(v: u16, order: ByteOrder): (b: seq<u8>)
    ensures |b| == 2
  {
    if order == BigEndian then [v / 0x100, v % 0x100] else [v % 0x100, v / 0x100]
  }

  function Read16(b: seq<u8>, order: ByteOrder): (v: u16)
    requires |b| == 2
  {
    if order == BigEndian then b[0] as int * 0x100 + b[1] as int else b[1] as int * 0x100 + b[0] as int
  }

  function Bytes32(v: u32, order: ByteOrder): (b: seq<u8>)
    ensures |b| == 4
  {
    var be := [v / 0x100_0000, (v / 0x1_0000) % 0x100, (v / 0x100) % 0x100, v % 0x100];
    if order == BigEndian then be else [be[3], be[2], be[1], be[0]]
  }

  function Read32(b: seq<u8>, order: ByteOrder): (v: u32)
    requires |b| == 4
  {
    if order == BigEndian
    then b[0] as int * 0x100_0000 + b[1] as int * 0x1_0000 + b[2] as int * 0x100 + b[3] as int
    else b[3] as int * 0x100_0000 + b[2] as int * 0x1_0000 + b[1] as int * 0x100 + b[0] as int
  }

  lemma Read16Bytes(v: u16, order: ByteOrder)
    ensures Read16(Bytes16(v, order), order) == v
  {
  }

  lemma Bytes16Read(b: seq<u8>, order: ByteOrder)
    requires |b| == 2
    ensures Bytes16(Read16(b, order), order) == b
  {
    var v := Read16(b, order);
    if order == BigEndian {
      DivUnique(v, 0x100, b[0], b[1]);
    } else {
      DivUnique(v, 0x100, b[1], b[0]);
    }
  }

  lemma Read32Bytes(v: u32, order: ByteOrder)
    ensures Read32(Bytes32(v, order), order) == v
  {
    var q1, q2, q3 := v / 0x100, v / 0x1_0000, v / 0x100_0000;
    DivTwice(v, 8);
    DivTwice(q1, 8);
    DivTwice(q2, 8);
    Pow2Values();
    assert q2 == q1 / 0x100 && q3 == q2 / 0x100;
    assert v == q1 * 0x100 + v % 0x100;
    assert q1 == q2 * 0x100 + q1 % 0x100;
    assert q2 == q3 * 0x100 + q2 % 0x100;
  }

  lemma Bytes32Read(b: seq<u8>, order: ByteOrder)
    requires |b| == 4
    ensures Bytes32(Read32(b, order), order) == b
  {
    if order == BigEndian {
      BigEndianDigits(b[0], b[1], b[2], b[3]);
    } else {
      BigEndianDigits(b[3], b[2], b[1], b[0]);
    }
  }

  /** The four base-256 digits of a 32-bit value, most significant first. */
  lemma BigEndianDigits(b0: u8, b1: u8, b2: u8, b3: u8)
    ensures var v := b0 as int * 0x100_0000 + b1 as int * 0x1_0000 + b2 as int * 0x100 + b3 as int;
            && v / 0x100_0000 == b0 && (v / 0x1_0000) % 0x100 == b1
            && (v / 0x100) % 0x100 == b2 && v % 0x100 == b3
  {
    var q2: int := b0 as int * 0x100 + b1 as int;
    var q1: int := q2 * 0x100 + b2 as int;
    var v: int := q1 * 0x100 + b3 as int;
    DivUnique(v, 0x100_0000, b0 as int, b1 as int * 0x1_0000 + b2 as int * 0x100 + b3 as int);
    DivUnique(v, 0x1_0000, q2, b2 as int * 0x100 + b3 as int);
    DivUnique(q2, 0x100, b0 as int, b1 as int);
    DivUnique(v, 0x100, q1, b3 as int);
    DivUnique(q1, 0x100, q2, b2 as int);
  }

  // ---------------------------------------------------------------------------------------
  // The struct in memory

  /** The twenty bytes of a header laid out in the given order. */
  function Layout(h: TppHdr, order: ByteOrder): (b: seq<u8>)
    ensures |b| == TpphdrLen
  {
    Bytes16(h.sport, order) + Bytes16(h.dport, order) + Bytes32(h.szSeg, order)
      + Bytes32(h.seqNum, order) + Bytes32(h.ackNum, order) + [h.flags, h.x]
      + Bytes16(h.checksum, order)
  }

  /** The header a buffer holds, each field read in the given order. */
  function View(b: seq<u8>, order: ByteOrder): (h: TppHdr)
    requires |b| >= TpphdrLen
    ensures h.flags == b[FlagsAt] && h.x == b[XAt]
  {
    TppHdr(Read16(b[0..2], order), Read16(b[2..4], order), Read32(b[4..8], order),
           Read32(b[8..12], order), Read32(b[12..16], order), b[16], b[17],
           Read16(b[18..20], order))
  }

  /** Reading back what was laid out gives every field. */
  lemma ViewLayout(h: TppHdr, order: ByteOrder)
    ensures View(Layout(h, order), order) == h
  {
    var b := Layout(h, order);
    assert b[0..2] == Bytes16(h.sport, order);
    assert b[2..4] == Bytes16(h.dport, order);
    assert b[4..8] == Bytes32(h.szSeg, order);
    assert b[8..12] == Bytes32(h.seqNum, order);
    assert b[12..16] == Bytes32(h.ackNum, order);
    assert b[18..20] == Bytes16(h.checksum, order);
    Read16Bytes(h.sport, order);
    Read16Bytes(h.dport, order);
    Read32Bytes(h.szSeg, order);
    Read32Bytes(h.seqNum, order);
    Read32Bytes(h.ackNum, order);
    Read16Bytes(h.checksum, order);
  }

  /** Laying out what was read gives back the twenty header bytes. */
  lemma LayoutView(b: seq<u8>, order: ByteOrder)
    requires |b| >= TpphdrLen
    ensures Layout(View(b, order), order) == b[..TpphdrLen]
  {
    Bytes16Read(b[0..2], order);
    Bytes16Read(b[2..4], order);
    Bytes32Read(b[4..8], order);
    Bytes32Read(b[8..12], order);
    Bytes32Read(b[12..16], order);
    Bytes16Read(b[18..20], order);
    assert b[..TpphdrLen] == b[0..2] + b[2..4] + b[4..8] + b[8..12] + b[12..16] + [b[16], b[17]]
                             + b[18..20];
  }

  /** The header is read from the first twenty bytes only. */
  lemma ViewPrefix(b: seq<u8>, c: seq<u8>, order: ByteOrder)
    requires |b| >= TpphdrLen && |c| >= TpphdrLen && b[..TpphdrLen] == c[..TpphdrLen]
    ensures View(b, order) == View(c, order)
  {
    assert b[0..2] == c[0..2] && b[2..4] == c[2..4] && b[4..8] == c[4..8];
    assert b[8..12] == c[8..12] && b[12..16] == c[12..16] && b[18..20] == c[18..20];
    assert b[16] == c[16] && b[17] == c[17];
  }

  // ---------------------------------------------------------------------------------------
  // The setters and the converters, on buffer contents

  /** The buffer with `bs` written at offset `off`. */
  function Put(b: seq<u8>, off: nat, bs: seq<u8>): (r: seq<u8>)
    requires off + |bs| <= |b|
    ensures |r| == |b| && r[off..off + |bs|] == bs
    ensures forall i :: 0 <= i < |b| && !(off <= i < off + |bs|) ==> r[i] == b[i]
  {
    b[..off] + bs + b[off + |bs|..]
  }

  /** What `init_seg_hdr_h` writes: the two ports, a segment size of one bare header, and
      every other field 0. */
  function InitHdr(sport: u16, dport: u16): TppHdr {
    TppHdr(sport, dport, TpphdrLen, 0, 0, 0, 0, 0)
  }

  /** `hton_seg`: every header field read in host order and written in network order; the
      payload is left alone. */
  function HtonBytes(b: seq<u8>, host: ByteOrder): (r: seq<u8>)
    requires |b| >= TpphdrLen
    ensures |r| == |b|
  {
    Layout(View(b, host), BigEndian) + b[TpphdrLen..]
  }

  /** `ntoh_seg`: the reverse. */
  function NtohBytes(b: seq<u8>, host: ByteOrder): (r: seq<u8>)
    requires |b| >= TpphdrLen
    ensures |r| == |b|
  {
    Layout(View(b, BigEndian), host) + b[TpphdrLen..]
  }

  /** Writing never touches the bytes outside the written range. */
  lemma PutKeeps(b: seq<u8>, off: nat, bs: seq<u8>, i: nat, j: nat)
    requires off + |bs| <= |b| && i <= j <= |b| && (j <= off || off + |bs| <= i)
    ensures Put(b, off, bs)[i..j] == b[i..j]
  {
    var r := Put(b, off, bs);
    assert forall k :: i <= k < j ==> r[i..j][k - i] == r[k] == b[k] == b[i..j][k - i];
  }

  /** `set_seg_size_h` changes the segment size and no other field. */
  lemma SetSizeView(b: seq<u8>, size: u32, host: ByteOrder)
    requires |b| >= TpphdrLen
    ensures View(Put(b, SzSegAt, Bytes32(size, host)), host) == View(b, host).(szSeg := size)
  {
    var bs := Bytes32(size, host);
    PutKeeps(b, SzSegAt, bs, 0, 2);
    PutKeeps(b, SzSegAt, bs, 2, 4);
    PutKeeps(b, SzSegAt, bs, 8, 12);
    PutKeeps(b, SzSegAt, bs, 12, 16);
    PutKeeps(b, SzSegAt, bs, 18, 20);
    Read32Bytes(size, host);
  }

  /** `set_seg_seq_h` changes the sequence number and no other field. */
  lemma SetSeqView(b: seq<u8>, seqNum: u32, host: ByteOrder)
    requires |b| >= TpphdrLen
    ensures View(Put(b, SeqAt, Bytes32(seqNum, host)), host) == View(b, host).(seqNum := seqNum)
  {
    var bs := Bytes32(seqNum, host);
    PutKeeps(b, SeqAt, bs, 0, 2);
    PutKeeps(b, SeqAt, bs, 2, 4);
    PutKeeps(b, SeqAt, bs, 4, 8);
    PutKeeps(b, SeqAt, bs, 12, 16);
    PutKeeps(b, SeqAt, bs, 18, 20);
    Read32Bytes(seqNum, host);
  }

  /** `set_seg_ack_h` changes the acknowledgement number and no other field. */
  lemma SetAckView(b: seq<u8>, ackNum: u32, host: ByteOrder)
    requires |b| >= TpphdrLen
    ensures View(Put(b, AckAt, Bytes32(ackNum, host)), host) == View(b, host).(ackNum := ackNum)
  {
    var bs := Bytes32(ackNum, host);
    PutKeeps(b, AckAt, bs, 0, 2);
    PutKeeps(b, AckAt, bs, 2, 4);
    PutKeeps(b, AckAt, bs, 4, 8);
    PutKeeps(b, AckAt, bs, 8, 12);
    PutKeeps(b, AckAt, bs, 18, 20);
    Read32Bytes(ackNum, host);
  }

  /** `set_seg_flags_h` replaces the flags byte and changes no other field. */
  lemma SetFlagsView(b: seq<u8>, flags: u8, host: ByteOrder)
    requires |b| >= TpphdrLen
    ensures View(Put(b, FlagsAt, [flags]), host) == View(b, host).(flags := flags)
  {
    PutKeeps(b, FlagsAt, [flags], 0, 2);
    PutKeeps(b, FlagsAt, [flags], 2, 4);
    PutKeeps(b, FlagsAt, [flags], 4, 8);
    PutKeeps(b, FlagsAt, [flags], 8, 12);
    PutKeeps(b, FlagsAt, [flags], 12, 16);
    PutKeeps(b, FlagsAt, [flags], 18, 20);
  }

  /** `set_seg_checksum_h` changes the checksum and no other field. */
  lemma SetChecksumView(b: seq<u8>, checksum: u16, host: ByteOrder)
    requires |b| >= TpphdrLen
    ensures View(Put(b, ChecksumAt, Bytes16(checksum, host)), host)
            == View(b, host).(checksum := checksum)
  {
    var bs := Bytes16(checksum, host);
    PutKeeps(b, ChecksumAt, bs, 0, 2);
    PutKeeps(b, ChecksumAt, bs, 2, 4);
    PutKeeps(b, ChecksumAt, bs, 4, 8);
    PutKeeps(b, ChecksumAt, bs, 8, 12);
    PutKeeps(b, ChecksumAt, bs, 12, 16);
    Read16Bytes(checksum, host);
  }

  /** `init_seg_hdr_h` leaves a header with the two ports, a size of one header and every
      other field 0, whatever the buffer held. */
  lemma InitView(b: seq<u8>, sport: u16, dport: u16, host: ByteOrder)
    requires |b| >= TpphdrLen
    ensures View(Put(b, 0, Layout(InitHdr(sport, dport), host)), host) == InitHdr(sport, dport)
  {
    var l := Layout(InitHdr(sport, dport), host);
    var r := Put(b, 0, l);
    assert r[..TpphdrLen] == l[..TpphdrLen];
    ViewPrefix(r, l, host);
    ViewLayout(InitHdr(sport, dport), host);
  }

  /** After `hton_seg` a reader in network order sees the fields the host saw, and the payload is
      unchanged. */
  lemma HtonView(b: seq<u8>, host: ByteOrder)
    requires |b| >= TpphdrLen
    ensures View(HtonBytes(b, host), BigEndian) == View(b, host)
    ensures HtonBytes(b, host)[TpphdrLen..] == b[TpphdrLen..]
  {
    var l := Layout(View(b, host), BigEndian);
    assert HtonBytes(b, host)[..TpphdrLen] == l[..TpphdrLen];
    ViewPrefix(HtonBytes(b, host), l, BigEndian);
    ViewLayout(View(b, host), BigEndian);
  }

  /** After `ntoh_seg` the host sees the fields a reader in network order saw, and the payload
      is unchanged. */
  lemma NtohView(b: seq<u8>, host: ByteOrder)
    requires |b| >= TpphdrLen
    ensures View(NtohBytes(b, host), host) == View(b, BigEndian)
    ensures NtohBytes(b, host)[TpphdrLen..] == b[TpphdrLen..]
  {
    var l := Layout(View(b, BigEndian), host);
    assert NtohBytes(b, host)[..TpphdrLen] == l[..TpphdrLen];
    ViewPrefix(NtohBytes(b, host), l, host);
    ViewLayout(View(b, BigEndian), host);
  }

  /** `ntoh_seg` undoes `hton_seg`. */
  lemma NtohHton(b: seq<u8>, host: ByteOrder)
    requires |b| >= TpphdrLen
    ensures NtohBytes(HtonBytes(b, host), host) == b
  {
    HtonView(b, host);
    LayoutView(b, host);
    assert b[..TpphdrLen] + b[TpphdrLen..] == b;
  }

  /** `hton_seg` undoes `ntoh_seg`. */
  lemma HtonNtoh(b: seq<u8>, host: ByteOrder)
    requires |b| >= TpphdrLen
    ensures HtonBytes(NtohBytes(b, host), host) == b
  {
    NtohView(b, host);
    LayoutView(b, BigEndian);
    assert b[..TpphdrLen] + b[TpphdrLen..] == b;
  }

  /** On a big-endian host the converters change nothing. */
  lemma BigEndianHostIdentity(b: seq<u8>)
    requires |b| >= TpphdrLen
    ensures HtonBytes(b, BigEndian) == b && NtohBytes(b, BigEndian) == b
  {
    LayoutView(b, BigEndian);
    assert b[..TpphdrLen] + b[TpphdrLen..] == b;
  }

  // ---------------------------------------------------------------------------------------
  // The flags byte

  /** TH_SYN, TH_ACK and TH_FIN are the three top bits of the flags byte, one bit each. */
  lemma FlagBits()
    ensures ThSyn == Pow2(7) && ThAck == Pow2(6) && ThFin == Pow2(5)
    ensures forall k: nat :: k < 8 ==> (Bit(ThSyn, k) <==> k == 7)
    ensures forall k: nat :: k < 8 ==> (Bit(ThAck, k) <==> k == 6)
    ensures forall k: nat :: k < 8 ==> (Bit(ThFin, k) <==> k == 5)
  {
    assert Pow2(4) == 16;
    assert Pow2(5) == 32 && Pow2(6) == 64 && Pow2(7) == 128;
    assert Pow2(0) == 1 && Pow2(1) == 2 && Pow2(2) == 4 && Pow2(3) == 8;
  }

  /** The three flags share no bit, and SYN|ACK is 0xC0, the byte `client_fsm` waits for. */
  lemma FlagsDisjoint()
    ensures BitAnd(ThSyn, ThAck) == 0 && BitAnd(ThSyn, ThFin) == 0 && BitAnd(ThAck, ThFin) == 0
    ensures BitOr(ThSyn, ThAck) == ThSynAck
  {
    FlagBits();
    AndPow2(ThSyn, 6);
    AndPow2(ThSyn, 5);
    AndPow2(ThAck, 5);
    OrPow2(ThSyn, 6);
  }

  // ---------------------------------------------------------------------------------------
  // The header routines, in place

  /** Writes `bs` into `p` at offset `off`, byte by byte. */
  method Write(p: array<u8>, off: nat, bs: seq<u8>)
    requires off + |bs| <= p.Length
    modifies p
    ensures p[..] == Put(old(p[..]), off, bs)
  {
    ghost var b0 := p[..];
    for i := 0 to |bs|
      invariant forall j :: 0 <= j < i ==> p[off + j] == bs[j]
      invariant forall j :: 0 <= j < p.Length && !(off <= j < off + i) ==> p[j] == b0[j]
    {
      p[off + i] := bs[i];
    }
    ghost var r := Put(b0, off, bs);
    assert forall j :: off <= j < off + |bs| ==> r[j] == r[off..off + |bs|][j - off];
  }

  method InitSegHdrH(p: array<u8>, sport: u16, dport: u16, host: ByteOrder)
    requires p.Length >= TpphdrLen
    modifies p
    ensures p[..] == Put(old(p[..]), 0, Layout(InitHdr(sport, dport), host))
  {
    Write(p, 0, Layout(InitHdr(sport, dport), host));
  }

  method SetSegSizeH(p: array<u8>, size: u32, host: ByteOrder)
    requires p.Length >= TpphdrLen
    modifies p
    ensures p[..] == Put(old(p[..]), SzSegAt, Bytes32(size, host))
  {
    Write(p, SzSegAt, Bytes32(size, host));
  }

  method SetSegSeqH(p: array<u8>, seqNum: u32, host: ByteOrder)
    requires p.Length >= TpphdrLen
    modifies p
    ensures p[..] == Put(old(p[..]), SeqAt, Bytes32(seqNum, host))
  {
    Write(p, SeqAt, Bytes32(seqNum, host));
  }

  method SetSegAckH(p: array<u8>, ackNum: u32, host: ByteOrder)
    requires p.Length >= TpphdrLen
    modifies p
    ensures p[..] == Put(old(p[..]), AckAt, Bytes32(ackNum, host))
  {
    Write(p, AckAt, Bytes32(ackNum, host));
  }

  method SetSegFlagsH(p: array<u8>, flags: u8)
    requires p.Length >= TpphdrLen
    modifies p
    ensures p[..] == Put(old(p[..]), FlagsAt, [flags])
  {
    Write(p, FlagsAt, [flags]);
  }

  method SetSegChecksumH(p: array<u8>, checksum: u16, host: ByteOrder)
    requires p.Length >= TpphdrLen
    modifies p
    ensures p[..] == Put(old(p[..]), ChecksumAt, Bytes16(checksum, host))
  {
    Write(p, ChecksumAt, Bytes16(checksum, host));
  }

  method HtonSeg(buf: array<u8>, host: ByteOrder)
    requires buf.Length >= TpphdrLen
    modifies buf
    ensures buf[..] == HtonBytes(old(buf[..]), host)
  {
    Write(buf, 0, Layout(View(buf[..], host), BigEndian));
  }

  method NtohSeg(buf: array<u8>, host: ByteOrder)
    requires buf.Length >= TpphdrLen
    modifies buf
    ensures buf[..] == NtohBytes(old(buf[..]), host)
  {
    Write(buf, 0, Layout(View(buf[..], BigEndian), host));
  }
}
