/** The segment codec of src/segment.rs: a 20-byte big-endian header (source port, destination
    port, segment size, sequence number, acknowledgement number, flags word, checksum) followed
    by the payload. Every setter stores a fresh checksum, so a segment whose header is not all
    zero validates after any of them. */
module Segment {
  import opened Bits
  import opened Bytes
  import opened Checksum

  /** Header length in bytes. */
  const HeaderLen: nat := 20

  datatype Flag = Ack | Syn | Fin

  /** The bit of the flags word each flag occupies. */
  function FlagBit(f: Flag): (k: nat)
    ensures 13 <= k < 16
  {
    match f
    case Syn => 15
    case Ack => 14
    case Fin => 13
  }

  /** The field values of a segment. */
  datatype SegmentData = SegmentData(
    srcPort: u16, dstPort: u16, segSize: u32, seqNum: u32, ackNum: u32,
    flags: u16, checksum: u16, payload: seq<u8>)

  // ---------------------------------------------------------------------------------------
  // Wire image

  /** The 16 bytes of ports, size, sequence and acknowledgement numbers. */
  function FixedBytes(s: SegmentData): (b: seq<u8>)
    ensures |b| == 16
  {
    U16ToU8(s.srcPort) + U16ToU8(s.dstPort) + U32ToU8(s.segSize) + U32ToU8(s.seqNum)
      + U32ToU8(s.ackNum)
  }

  /** The 18 header bytes in front of the checksum field. */
  function HeaderBytes(s: SegmentData): (b: seq<u8>)
    ensures |b| == 18
  {
    FixedBytes(s) + U16ToU8(s.flags)
  }

  /** The bytes `to_byte_vec` produces: every field big-endian, in declaration order, then the
      payload. */
  function ToBytes(s: SegmentData): (b: seq<u8>)
    ensures |b| == HeaderLen + |s.payload|
    ensures b[..18] == HeaderBytes(s) && b[20..] == s.payload
  {
    HeaderBytes(s) + U16ToU8(s.checksum) + s.payload
  }

  /** Each field sits big-endian at its offset of the image. */
  lemma ToBytesFields(s: SegmentData)
    ensures var b := ToBytes(s);
      && BufToU16(b[0..2]) == s.srcPort && BufToU16(b[2..4]) == s.dstPort
      && BufToU32(b[4..8]) == s.segSize && BufToU32(b[8..12]) == s.seqNum
      && BufToU32(b[12..16]) == s.ackNum
      && BufToU16(b[16..18]) == s.flags && BufToU16(b[18..20]) == s.checksum
  {
    var b := ToBytes(s);
    assert b[0..2] == U16ToU8(s.srcPort);
    assert b[2..4] == U16ToU8(s.dstPort);
    assert b[4..8] == U32ToU8(s.segSize);
    assert b[8..12] == U32ToU8(s.seqNum);
    assert b[12..16] == U32ToU8(s.ackNum);
    assert b[16..18] == U16ToU8(s.flags);
    assert b[18..20] == U16ToU8(s.checksum);
    U16RoundTrip(s.srcPort);
    U16RoundTrip(s.dstPort);
    U32RoundTrip(s.segSize);
    U32RoundTrip(s.seqNum);
    U32RoundTrip(s.ackNum);
    U16RoundTrip(s.flags);
    U16RoundTrip(s.checksum);
  }

  /** `from_buf`: the fields read back from a buffer of at least 20 bytes. */
  function FromBytes(buf: seq<u8>): (s: SegmentData)
    requires |buf| >= HeaderLen
    ensures s.payload == buf[20..]
  {
    SegmentData(
      BufToU16(buf[0..2]), BufToU16(buf[2..4]), BufToU32(buf[4..8]), BufToU32(buf[8..12]),
      BufToU32(buf[12..16]), BufToU16(buf[16..18]), BufToU16(buf[18..20]), buf[20..])
  }

  // ---------------------------------------------------------------------------------------
  // Checksum

  /** What `generate_checksum` returns, from the field values: the complement of the one's
      complement sum of the header words in front of the checksum field and the payload's
      words, or 0 when they are all zero. GeneratedChecksumOfImage shows that this is the
      complement of the RFC 1071 sum of the image with its checksum field zeroed, which is
      how `generate_checksum` computes it. */
  function GeneratedChecksum(s: SegmentData): (c: u16)
  {
    var t := HeaderSum(s) + Total(Words(s.payload, BigEndian));
    if t == 0 then 0 else M - Norm(t)
  }

  /** `generate_checksum` sums the image of the segment with its checksum field zeroed. */
  lemma GeneratedChecksumOfImage(s: SegmentData)
    ensures var sum := OnesComplementSum(ToBytes(s.(checksum := 0)));
            GeneratedChecksum(s) == if sum == 0 then 0 else 0xFFFF - sum
  {
    GeneratedOfTotal(s, Total(Words(ToBytes(s.(checksum := 0)), BigEndian)));
  }

  /** The checksum generated does not depend on the checksum field. */
  lemma GeneratedIgnoresChecksum(s: SegmentData, x: u16)
    ensures GeneratedChecksum(s.(checksum := x)) == GeneratedChecksum(s)
  {
    assert s.(checksum := x).(checksum := 0) == s.(checksum := 0);
  }

  /** The segment with its checksum field recomputed, as every setter leaves it. */
  function Regenerate(s: SegmentData): (r: SegmentData)
    ensures r.checksum == GeneratedChecksum(s)
  {
    s.(checksum := GeneratedChecksum(s))
  }

  /** `validate`: the sum over the whole image, checksum included, is all ones. */
  predicate IsValid(s: SegmentData) {
    OnesComplementSum(ToBytes(s)) == 0xFFFF
  }

  // ---------------------------------------------------------------------------------------
  // Flags

  /** `flags | 1 << bit(f)`: sets the flag's bit and keeps every other bit. */
  function FlagSet(flags: u16, f: Flag): (r: u16)
    ensures forall k: nat :: k < 16 ==> (Bit(r, k) <==> k == FlagBit(f) || Bit(flags, k))
  {
    var k0 := FlagBit(f);
    SetBitFacts(flags, k0);
    BitOr(flags, Pow2(k0))
  }

  lemma SetBitFacts(x: u16, k0: nat)
    requires k0 < 16
    ensures BitOr(x, Pow2(k0)) < 0x1_0000
    ensures forall k: nat :: k < 16 ==> (Bit(BitOr(x, Pow2(k0)), k) <==> k == k0 || Bit(x, k))
  {
    OrPow2(x, k0);
    Pow2Values();
    PowMonotone(k0, 15);
    if !Bit(x, k0) {
      SetBitBound(x, 16, k0);
      FlipClearBit(x, k0);
      forall k: nat | k < 16 && k != k0 ensures Bit(x + Pow2(k0), k) <==> Bit(x, k) {
        AddBitOthers(x, k0, k);
      }
    }
  }

  /** `!(!flags | 1 << bit(f))`: clears the flag's bit and keeps every other bit. */
  function FlagCleared(flags: u16, f: Flag): (r: u16)
    ensures forall k: nat :: k < 16 ==> (Bit(r, k) <==> k != FlagBit(f) && Bit(flags, k))
  {
    Pow2Values();
    var flipped := BitNot(flags, 16);
    var flipped' := FlagSet(flipped, f);
    BitNot(flipped', 16)
  }

  /** `get_flag`: `flags & 1 << bit(f) > 0`. */
  function HasFlag(flags: u16, f: Flag): (b: bool)
    ensures b <==> Bit(flags, FlagBit(f))
  {
    AndPow2(flags, FlagBit(f));
    BitAnd(flags, Pow2(FlagBit(f))) > 0
  }

  // ---------------------------------------------------------------------------------------
  // The operations on field values

  /** `Segment::new`. */
  function NewData(srcPort: u16, dstPort: u16): (s: SegmentData)
  {
    Regenerate(SegmentData(srcPort, dstPort, 20, 0, 0, 0, 0, []))
  }

  /** `set_data`: the size counts the header and the payload; the length cast keeps 32 bits. */
  function WithData(s: SegmentData, data: seq<u8>): (r: SegmentData)
    requires Wrap32(|data|) + 20 < 0x1_0000_0000
  {
    Regenerate(s.(segSize := 20 + Wrap32(|data|), payload := data))
  }

  // ---------------------------------------------------------------------------------------
  // Properties

  /** `from_buf` undoes `to_byte_vec`. */
  lemma FromToBytes(s: SegmentData)
    ensures FromBytes(ToBytes(s)) == s
  {
    ToBytesFields(s);
  }

  /** `to_byte_vec` undoes `from_buf`. */
  lemma ToFromBytes(buf: seq<u8>)
    requires |buf| >= HeaderLen
    ensures ToBytes(FromBytes(buf)) == buf
  {
    var s := FromBytes(buf);
    FromBytesFixed(buf);
    BufU16RoundTrip(buf[16..18]);
    BufU16RoundTrip(buf[18..20]);
    assert buf == buf[..16] + buf[16..18] + buf[18..20] + buf[20..];
  }

  lemma FromBytesFixed(buf: seq<u8>)
    requires |buf| >= HeaderLen
    ensures FixedBytes(FromBytes(buf)) == buf[..16]
  {
    BufU16RoundTrip(buf[0..2]);
    BufU16RoundTrip(buf[2..4]);
    BufU32RoundTrip(buf[4..8]);
    BufU32RoundTrip(buf[8..12]);
    BufU32RoundTrip(buf[12..16]);
    assert buf[..16] == buf[0..2] + buf[2..4] + buf[4..8] + buf[8..12] + buf[12..16];
  }

  /** The nine 16-bit words of the header in front of the checksum field: each port, each
      half of the size, sequence and acknowledgement numbers, and the flags. */
  function HeaderWords(s: SegmentData): (ws: seq<u16>)
    ensures |ws| == 9
  {
    [s.srcPort, s.dstPort, s.segSize / 0x1_0000, s.segSize % 0x1_0000,
     s.seqNum / 0x1_0000, s.seqNum % 0x1_0000, s.ackNum / 0x1_0000, s.ackNum % 0x1_0000,
     s.flags]
  }

  /** The 18 header bytes are the header words, high byte first. */
  lemma HeaderBytesWords(s: SegmentData)
    ensures HeaderBytes(s) == FlatMapU16ToU8(HeaderWords(s))
  {
    var p1, p2 := [s.srcPort], [s.dstPort];
    var p3, p4, p5 := U32ToU16(s.segSize), U32ToU16(s.seqNum), U32ToU16(s.ackNum);
    var p6 := [s.flags];
    assert HeaderWords(s) == p1 + p2 + p3 + p4 + p5 + p6;
    FlatMapAppend(p1 + p2 + p3 + p4 + p5, p6);
    FlatMapAppend(p1 + p2 + p3 + p4, p5);
    FlatMapAppend(p1 + p2 + p3, p4);
    FlatMapAppend(p1 + p2, p3);
    FlatMapAppend(p1, p2);
    FlatMapOne(s.srcPort);
    FlatMapOne(s.dstPort);
    FlatMapOne(s.flags);
  }

  /** Reading back the words of big-endian pairs gives the words. */
  lemma {:induction false} WordsOfFlatMap(ws: seq<u16>)
    ensures Words(FlatMapU16ToU8(ws), BigEndian) == ws
    decreases |ws|
  {
    if ws != [] {
      var head := U16ToU8(ws[0]);
      WordsAppend(head, FlatMapU16ToU8(ws[1..]), BigEndian);
      WordsOfFlatMap(ws[1..]);
      assert Words(head, BigEndian) == [ws[0]];
    }
  }

  /** The plain total of a segment's words is the header's, plus the checksum word, plus the
      payload's. */
  lemma ImageTotal(s: SegmentData)
    ensures Total(Words(ToBytes(s), BigEndian))
         == Total(Words(HeaderBytes(s), BigEndian)) + s.checksum + Total(Words(s.payload, BigEndian))
    ensures Total(Words(HeaderBytes(s), BigEndian)) == Total(HeaderWords(s))
  {
    HeaderBytesWords(s);
    WordsOfFlatMap(HeaderWords(s));
    var c := U16ToU8(s.checksum);
    assert ToBytes(s) == HeaderBytes(s) + [c[0], c[1]] + s.payload;
    TotalAroundWord(HeaderBytes(s), c[0], c[1], s.payload, BigEndian);
  }

  /** The plain total of the header words in front of the checksum field, from the field
      values alone. */
  function HeaderSum(s: SegmentData): nat
  {
    s.srcPort + s.dstPort + s.segSize / 0x1_0000 + s.segSize % 0x1_0000
      + s.seqNum / 0x1_0000 + s.seqNum % 0x1_0000 + s.ackNum / 0x1_0000 + s.ackNum % 0x1_0000
      + s.flags
  }

  lemma {:induction false} HeaderSumTotal(s: SegmentData)
    ensures Total(HeaderWords(s)) == HeaderSum(s)
  {
    var ws := HeaderWords(s);
    assert Total(ws[8..]) == ws[8] by { assert ws[8..][1..] == []; }
    assert Total(ws[7..]) == ws[7] + Total(ws[8..]) by { assert ws[7..][1..] == ws[8..]; }
    assert Total(ws[6..]) == ws[6] + Total(ws[7..]) by { assert ws[6..][1..] == ws[7..]; }
    assert Total(ws[5..]) == ws[5] + Total(ws[6..]) by { assert ws[5..][1..] == ws[6..]; }
    assert Total(ws[4..]) == ws[4] + Total(ws[5..]) by { assert ws[4..][1..] == ws[5..]; }
    assert Total(ws[3..]) == ws[3] + Total(ws[4..]) by { assert ws[3..][1..] == ws[4..]; }
    assert Total(ws[2..]) == ws[2] + Total(ws[3..]) by { assert ws[2..][1..] == ws[3..]; }
    assert Total(ws[1..]) == ws[1] + Total(ws[2..]) by { assert ws[1..][1..] == ws[2..]; }
  }

  /** The checksum `generate_checksum` computes, in terms of the field values. */
  lemma GeneratedChecksumValue(s: SegmentData, t: nat)
    requires t == HeaderSum(s) + Total(Words(s.payload, BigEndian))
    ensures GeneratedChecksum(s) == if t == 0 then 0 else M - Norm(t)
  {
  }

  lemma GeneratedOfTotal(s: SegmentData, t: nat)
    requires Total(Words(ToBytes(s.(checksum := 0)), BigEndian)) == t
    ensures GeneratedChecksum(s) == if t == 0 then 0 else M - Norm(t)
  {
    ZeroedImageSum(s);
    GeneratedChecksumValue(s, t);
  }

  /** The plain total of the image with its checksum field zeroed, from the field values. */
  lemma ZeroedImageSum(s: SegmentData)
    ensures Total(Words(ToBytes(s.(checksum := 0)), BigEndian))
         == HeaderSum(s) + Total(Words(s.payload, BigEndian))
  {
    var z := s.(checksum := 0);
    ImageSum(z);
    assert HeaderSum(z) == HeaderSum(s) && z.payload == s.payload;
  }

  /** Whether a segment validates, in terms of the field values. */
  lemma IsValidValue(s: SegmentData, t: nat)
    requires t == HeaderSum(s) + s.checksum + Total(Words(s.payload, BigEndian))
    ensures IsValid(s) <==> Norm(t) == M
  {
    ImageSum(s);
    ValidOfTotal(s, t);
  }

  lemma ValidOfTotal(s: SegmentData, t: nat)
    requires Total(Words(ToBytes(s), BigEndian)) == t
    ensures IsValid(s) <==> Norm(t) == M
  {
  }

  /** The plain total of a segment's image, from the field values. */
  lemma ImageSum(s: SegmentData)
    ensures Total(Words(ToBytes(s), BigEndian))
         == HeaderSum(s) + s.checksum + Total(Words(s.payload, BigEndian))
  {
    ImageTotal(s);
    HeaderSumTotal(s);
  }

  /** A regenerated segment validates exactly when its image (checksum zeroed) is not all
      zero. */
  lemma RegenerateValid(s: SegmentData)
    ensures IsValid(Regenerate(s)) <==> !AllZero(ToBytes(s.(checksum := 0)))
  {
    var bz := ToBytes(s.(checksum := 0));
    var t := Total(Words(bz, BigEndian));
    RegeneratedSum(s, t);
    GeneratedWordSum(t);
    TotalZero(bz, BigEndian);
  }

  /** The sum over a regenerated segment, from the total of its zeroed image. */
  lemma RegeneratedSum(s: SegmentData, t: nat)
    requires t == Total(Words(ToBytes(s.(checksum := 0)), BigEndian))
    ensures OnesComplementSum(ToBytes(Regenerate(s)))
         == Norm(t + if Norm(t) == 0 then 0 else M - Norm(t))
  {
    var b := ToBytes(Regenerate(s));
    RegenerateTotal(s);
    GeneratedOfTotal(s, t);
    var c := if Norm(t) == 0 then 0 else M - Norm(t);
    assert Total(Words(b, BigEndian)) == t + c;
  }

  /** Regenerating adds the new checksum word to the total of the zeroed image. */
  lemma RegenerateTotal(s: SegmentData)
    ensures Total(Words(ToBytes(Regenerate(s)), BigEndian))
         == Total(Words(ToBytes(s.(checksum := 0)), BigEndian)) + GeneratedChecksum(s)
  {
    var z := s.(checksum := 0);
    var r := Regenerate(s);
    ImageTotal(z);
    ImageTotal(r);
    assert HeaderBytes(r) == HeaderBytes(z);
  }

  /** A segment with a nonzero size field validates once its checksum is regenerated. */
  lemma SizedSegmentValid(s: SegmentData)
    requires s.segSize != 0
    ensures IsValid(Regenerate(s))
  {
    RegenerateValid(s);
    SizedImageNonzero(s.(checksum := 0));
  }

  lemma SizedImageNonzero(s: SegmentData)
    requires s.segSize != 0
    ensures !AllZero(ToBytes(s))
  {
    var b := ToBytes(s);
    ToBytesFields(s);
    var v := b[4..8];
    assert v[0] == b[4] && v[1] == b[5] && v[2] == b[6] && v[3] == b[7];
    assert b[4] != 0 || b[5] != 0 || b[6] != 0 || b[7] != 0;
  }

  /** Any change to the flags word of a valid segment, except between 0x0000 and 0xFFFF
      (equal modulo 2^16 - 1), makes it stop validating until the checksum is regenerated. */
  lemma FlagsChangeDetected(s: SegmentData, flags: u16)
    requires IsValid(s) && flags != s.flags
    requires !(flags == 0 && s.flags == 0xFFFF) && !(flags == 0xFFFF && s.flags == 0)
    ensures !IsValid(s.(flags := flags))
  {
    FlagsChangeTotal(s, flags);
    var t := Total(Words(ToBytes(s), BigEndian));
    var t' := Total(Words(ToBytes(s.(flags := flags)), BigEndian));
    if flags > s.flags {
      ChangeBreaksSum(t, t', flags - s.flags);
    } else {
      ChangeBreaksSum(t, t', s.flags - flags);
    }
  }

  /** Replacing the flags word changes the total by the difference of the words. */
  lemma FlagsChangeTotal(s: SegmentData, flags: u16)
    ensures Total(Words(ToBytes(s.(flags := flags)), BigEndian)) + s.flags
         == Total(Words(ToBytes(s), BigEndian)) + flags
  {
    var s' := s.(flags := flags);
    FlagsTotal(s);
    FlagsTotal(s');
    assert FixedBytes(s') == FixedBytes(s);
  }

  /** The total of an image, split around the flags word. */
  lemma FlagsTotal(s: SegmentData)
    ensures Total(Words(ToBytes(s), BigEndian))
         == Total(Words(FixedBytes(s), BigEndian)) + s.flags + s.checksum
            + Total(Words(s.payload, BigEndian))
  {
    ImageTotal(s);
    var f := U16ToU8(s.flags);
    assert HeaderBytes(s) == FixedBytes(s) + [f[0], f[1]] + [];
    TotalAroundWord(FixedBytes(s), f[0], f[1], [], BigEndian);
  }

  /** The flag bits are distinct: setting one never sets another. */
  lemma FlagSetOnlyOne(flags: u16, f: Flag, g: Flag)
    requires f != g
    ensures HasFlag(FlagSet(flags, f), f)
    ensures HasFlag(FlagSet(flags, f), g) == HasFlag(flags, g)
    ensures !HasFlag(FlagCleared(flags, f), f)
    ensures HasFlag(FlagCleared(flags, f), g) == HasFlag(flags, g)
  {
  }

  // ---------------------------------------------------------------------------------------
  // The segment object

  class Segment {
    var srcPort: u16
    var dstPort: u16
    var segSize: u32
    var seqNum: u32
    var ackNum: u32
    var flags: u16
    var checksum: u16
    var payload: seq<u8>

    function Data(): SegmentData
      reads this
    {
      SegmentData(srcPort, dstPort, segSize, seqNum, ackNum, flags, checksum, payload)
    }

    /** `Segment::new(src_port, dst_port)`. */
    constructor (srcPort: u16, dstPort: u16)
      ensures Data() == NewData(srcPort, dstPort)
      ensures Validate()
    {
      this.srcPort, this.dstPort := srcPort, dstPort;
      segSize, seqNum, ackNum, flags, checksum, payload := 20, 0, 0, 0, 0, [];
      new;
      StoreChecksum();
    }

    /** `Segment::from_buf(buf)`, which asserts at least 20 bytes. */
    constructor FromBuf(buf: seq<u8>)
      requires |buf| >= HeaderLen
      ensures Data() == FromBytes(buf)
      ensures ToByteVecOf() == buf
    {
      srcPort := BufToU16(buf[0..2]);
      dstPort := BufToU16(buf[2..4]);
      segSize := BufToU32(buf[4..8]);
      seqNum := BufToU32(buf[8..12]);
      ackNum := BufToU32(buf[12..16]);
      flags := BufToU16(buf[16..18]);
      checksum := BufToU16(buf[18..20]);
      payload := buf[20..];
      new;
      ToFromBytes(buf);
    }

    function SrcPort(): u16 reads this { srcPort }
    function DstPort(): u16 reads this { dstPort }
    function SeqNum(): u32 reads this { seqNum }
    function AckNum(): u32 reads this { ackNum }
    function Payload(): seq<u8> reads this { payload }

    /** The image `to_byte_vec` would build, for use in contracts. */
    function ToByteVecOf(): seq<u8>
      reads this
    {
      ToBytes(Data())
    }

    /** `get_flag`. */
    function GetFlag(f: Flag): (b: bool)
      reads this
      ensures b <==> Bit(flags, FlagBit(f))
    {
      HasFlag(flags, f)
    }

    /** `validate`. */
    predicate Validate()
      reads this
    {
      IsValid(Data())
    }

    /** `to_byte_vec`: the fields appended one after another, then the payload. */
    method ToByteVec() returns (image: seq<u8>)
      ensures image == ToBytes(Data())
    {
      image := U16ToU8(srcPort);
      image := image + U16ToU8(dstPort);
      image := image + U32ToU8(segSize);
      image := image + U32ToU8(seqNum);
      image := image + U32ToU8(ackNum);
      image := image + U16ToU8(flags);
      image := image + U16ToU8(checksum);
      image := image + payload;
    }

    /** `generate_checksum`: zeroes the checksum field, sums the image, and returns the
        complement of the sum, mapping a zero sum to 0. */
    method GenerateChecksum() returns (c: u16)
      modifies this
      ensures Data() == old(Data()).(checksum := 0)
      ensures c == GeneratedChecksum(old(Data())) == GeneratedChecksum(Data())
    {
      ghost var s0 := Data();
      checksum := 0;
      ghost var z := Data();
      assert z == s0.(checksum := 0);
      GeneratedIgnoresChecksum(s0, 0);
      var bytes := ToByteVec();
      var sum := OnesComplementSum(bytes);
      ghost var g := if sum == 0 then 0 else 0xFFFF - sum;
      GeneratedChecksumOfImage(s0);
      assert GeneratedChecksum(s0) == g;
      Pow2Values();
      if sum == 0 {
        sum := BitNot(sum, 16);
      }
      c := BitNot(sum, 16);
    }

    /** `self.checksum = self.generate_checksum()`, the statement every setter ends with. */
    method StoreChecksum()
      modifies this
      ensures Data() == Regenerate(old(Data()))
      ensures segSize != 0 ==> Validate()
    {
      ghost var s := Data();
      var c := GenerateChecksum();
      checksum := c;
      if segSize != 0 {
        SizedSegmentValid(s);
      }
    }

    /** `set_seq`. */
    method SetSeq(seqNum: u32)
      modifies this
      ensures Data() == Regenerate(old(Data()).(seqNum := seqNum))
      ensures segSize != 0 ==> Validate()
    {
      this.seqNum := seqNum;
      StoreChecksum();
    }

    /** `set_ack_num`. */
    method SetAckNum(ackNum: u32)
      modifies this
      ensures Data() == Regenerate(old(Data()).(ackNum := ackNum))
      ensures segSize != 0 ==> Validate()
    {
      this.ackNum := ackNum;
      StoreChecksum();
    }

    /** `set_flag`. */
    method SetFlag(f: Flag)
      modifies this
      ensures Data() == Regenerate(old(Data()).(flags := FlagSet(old(flags), f)))
      ensures GetFlag(f) && forall g :: g != f ==> GetFlag(g) == old(GetFlag(g))
      ensures segSize != 0 ==> Validate()
    {
      ghost var before := flags;
      flags := FlagSet(flags, f);
      forall g | g != f ensures HasFlag(flags, g) == HasFlag(before, g) {
        FlagSetOnlyOne(before, f, g);
      }
      FlagSetOnlyOne(before, f, if f == Syn then Ack else Syn);
      StoreChecksum();
    }

    /** `unset_flag`: complement, set the bit, complement again. */
    method UnsetFlag(f: Flag)
      modifies this
      ensures Data() == Regenerate(old(Data()).(flags := FlagCleared(old(flags), f)))
      ensures !GetFlag(f) && forall g :: g != f ==> GetFlag(g) == old(GetFlag(g))
      ensures segSize != 0 ==> Validate()
    {
      ghost var before := flags;
      flags := FlagCleared(flags, f);
      assert Data() == old(Data()).(flags := FlagCleared(old(flags), f));
      forall g | g != f ensures HasFlag(flags, g) == HasFlag(before, g) {
        FlagSetOnlyOne(before, f, g);
      }
      FlagSetOnlyOne(before, f, if f == Syn then Ack else Syn);
      StoreChecksum();
    }

    /** `set_data`: `data.len() as u32` keeps the low 32 bits, and adding 20 must not
        overflow. */
    method SetData(data: seq<u8>)
      requires Wrap32(|data|) + 20 < 0x1_0000_0000
      modifies this
      ensures Data() == WithData(old(Data()), data)
      ensures segSize == 20 + Wrap32(|data|) && payload == data
      ensures Validate()
    {
      segSize := 20 + Wrap32(|data|);
      payload := data;
      StoreChecksum();
    }
  }
}
