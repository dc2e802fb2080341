/** The concrete segments of the unit tests of src/segment.rs, stated as lemmas about the
    codec of module Segment. Each lemma takes the test's values through its requires clause;
    the symbolic steps are done by the small lemmas in front of them. */
module SegmentExamples {
  import opened Bits
  import opened Bytes
  import opened Checksum
  import opened Segment

  /** The segment of the `checksum` test when `set_data` is called: `Segment::new(0, 0)` with
      ports, sequence number and flags then written directly. */
  predicate ChecksumTestBase(s: SegmentData) {
    && s.srcPort == 2 && s.dstPort == 5 && s.segSize == 20
    && s.seqNum == 32 + 32 * 0x1_0000 && s.ackNum == 0 && s.flags == 4 && s.payload == []
  }

  // ---------------------------------------------------------------------------------------
  // Symbolic helpers

  /** Four bytes at offset i contribute two words to the total from i on. */
  lemma FourBytesAt(b: seq<u8>, i: nat)
    requires i + 4 <= |b|
    ensures Total(Words(b[i..], BigEndian))
         == b[i] as int * 256 + b[i + 1] as int + b[i + 2] as int * 256 + b[i + 3] as int
            + Total(Words(b[i + 4..], BigEndian))
  {
    var q := b[i..i + 4];
    assert b[i..] == q + b[i + 4..];
    TotalSplit(q, b[i + 4..], BigEndian);
    assert q[2..][2..] == [];
  }

  /** Three trailing bytes: one word, then the last byte as the high byte of a padded word. */
  lemma ThreeBytes(b: seq<u8>)
    requires |b| == 3
    ensures Total(Words(b, BigEndian)) == b[0] as int * 256 + b[1] as int + b[2] as int * 256
  {
    var w1, w2 := Word(b[0], b[1], BigEndian), Word(b[2], 0, BigEndian);
    assert Words(b[2..], BigEndian) == [w2];
    assert Words(b, BigEndian) == [w1, w2];
    assert [w1, w2][1..] == [w2] && [w2][1..] == [];
    assert Total([w2]) == w2;
    assert Total([w1, w2]) == w1 as int + w2 as int;
  }

  /** The total of a 23-byte image, byte by byte. */
  lemma Total23(b: seq<u8>)
    requires |b| == 23
    ensures Total(Words(b, BigEndian))
         == (b[0] as int + b[2] as int + b[4] as int + b[6] as int + b[8] as int + b[10] as int
             + b[12] as int + b[14] as int + b[16] as int + b[18] as int + b[20] as int
             + b[22] as int) * 256
            + b[1] as int + b[3] as int + b[5] as int + b[7] as int + b[9] as int + b[11] as int
            + b[13] as int + b[15] as int + b[17] as int + b[19] as int + b[21] as int
  {
    assert b[0..] == b;
    FourBytesAt(b, 0);
    FourBytesAt(b, 4);
    FourBytesAt(b, 8);
    FourBytesAt(b, 12);
    FourBytesAt(b, 16);
    ThreeBytes(b[20..]);
  }

  /** A checksum generated from a positive total no larger than 0xFFFF is its complement. */
  lemma ChecksumOfSmallTotal(x: SegmentData, t: nat)
    requires HeaderSum(x) + Total(Words(x.payload, BigEndian)) == t && 0 < t <= M
    ensures GeneratedChecksum(x) == M - t
  {
    GeneratedChecksumValue(x, t);
    NormSmall(t);
  }


  /** A total twice 0xFFFF folds to 0xFFFF. */
  lemma NormTwiceM(t: nat)
    requires t == 2 * M
    ensures Norm(t) == M
  {
  }

  // ---------------------------------------------------------------------------------------
  // The tests

  /** `set_data` of four bytes on a new segment gives size 24 (test `seg_size`). */
  lemma SegSizeTest(s: SegmentData, data: seq<u8>)
    requires s.segSize == 20 && data == [2, 4, 6, 8]
    ensures WithData(s, data).segSize == 24 && WithData(s, data).payload == data
  {
  }

  /** The checksum the `checksum` test expects after `set_data`. */
  lemma ChecksumTestValue(s: SegmentData, data: seq<u8>)
    requires ChecksumTestBase(s) && data == [2, 4, 6, 8]
    ensures WithData(s, data).checksum == 63376
  {
    var x := s.(segSize := 24, payload := data);
    assert s.(segSize := 20 + Wrap32(|data|), payload := data) == x;
    assert HeaderSum(x) == 99;
    assert data[0..] == data && data[4..] == [];
    FourBytesAt(data, 0);
    ChecksumOfSmallTotal(x, 2159);
  }

  /** The rest of the `checksum` test: `set_flag(SYN)` changes the checksum and the segment
      validates; OR-ing bit 1 into the flags afterwards makes it fail to validate. */
  lemma ChecksumTestFlags(s: SegmentData, data: seq<u8>)
    requires ChecksumTestBase(s) && data == [2, 4, 6, 8]
    ensures var s1 := WithData(s, data);
            var s2 := Regenerate(s1.(flags := FlagSet(s1.flags, Syn)));
            && s2.checksum != s1.checksum
            && IsValid(s2)
            && var f := BitOr(s2.flags, 2);
               f < 0x1_0000 && !IsValid(s2.(flags := f))
  {
    var x := s.(segSize := 24, payload := data);
    assert s.(segSize := 20 + Wrap32(|data|), payload := data) == x;
    assert HeaderSum(x) == 99;
    assert data[0..] == data && data[4..] == [];
    FourBytesAt(data, 0);
    SynScenario(x);
  }

  /** The `checksum` test after `set_data`, on any segment with the same flags, size and
      total. */
  lemma SynScenario(x: SegmentData)
    requires x.flags == 4 && x.segSize == 24
    requires HeaderSum(x) + Total(Words(x.payload, BigEndian)) == 2159
    ensures var s1 := Regenerate(x);
            var s2 := Regenerate(s1.(flags := FlagSet(s1.flags, Syn)));
            && s1.checksum == 63376
            && s2.checksum != s1.checksum
            && IsValid(s2)
            && var f := BitOr(s2.flags, 2);
               f < 0x1_0000 && !IsValid(s2.(flags := f))
  {
    ChecksumOfSmallTotal(x, 2159);
    var s1 := Regenerate(x);
    SynOnFour();
    var t := x.(flags := 0x8004);
    assert s1.(flags := FlagSet(s1.flags, Syn)) == t.(checksum := 63376);
    GeneratedIgnoresChecksum(t, 63376);
    assert HeaderSum(t) == HeaderSum(x) + 0x8000;
    ChecksumOfSmallTotal(t, 34927);
    SizedSegmentValid(t);
    BitOneOnSyn();
    FlagsChangeDetected(Regenerate(t), 0x8006);
  }

  lemma SynOnFour()
    ensures FlagSet(4, Syn) == 0x8004
  {
    Pow2Values();
    OrPow2(4, 15);
    DivUnique(4, 0x8000, 0, 4);
  }

  lemma BitOneOnSyn()
    ensures BitOr(0x8004, 2) == 0x8006
  {
    Pow2Values();
    OrPow2(0x8004, 1);
    DivUnique(0x8004, 2, 0x4002, 0);
  }

  /** The 23-byte segment of the `checksum_handout` test validates; its odd last byte is the
      high byte of a final word. */
  lemma HandoutValid(b: seq<u8>)
    requires b == [0x0C, 0x08, 0x10, 0x08, 0, 0, 0, 23, 0, 0, 0, 3, 0, 0, 0, 3,
                   0x40, 0, 0x4F, 0x7C, 0x55, 0x55, 0xFF]
    ensures OnesComplementSum(b) == 0xFFFF
    ensures IsValid(FromBytes(b))
  {
    Total23(b);
    assert Total(Words(b, BigEndian)) == 2 * M;
    NormTwiceM(Total(Words(b, BigEndian)));
    ToFromBytes(b);
  }

  /** The eight bytes of the `checksum_website` test sum to 0x259F. */
  lemma WebsiteSum(b: seq<u8>)
    requires b == [0x86, 0x5E, 0xAC, 0x60, 0x71, 0x2A, 0x81, 0xB5]
    ensures OnesComplementSum(b) == 0x259F
  {
    assert b[0..] == b;
    FourBytesAt(b, 0);
    FourBytesAt(b, 4);
    assert b[8..] == [];
    assert Total(Words(b, BigEndian)) == 0x865E + 0xAC60 + 0x712A + 0x81B5;
  }

  /** The `flags` test: SYN, FIN and ACK set one by one on a new segment, then SYN cleared. */
  lemma FlagsTest(f0: u16)
    requires f0 == 0
    ensures var f1 := FlagSet(f0, Syn);
            var f2 := FlagSet(f1, Fin);
            var f3 := FlagSet(f2, Ack);
            var f4 := FlagCleared(f3, Syn);
            && (!HasFlag(f0, Syn) && !HasFlag(f0, Ack) && !HasFlag(f0, Fin))
            && (HasFlag(f1, Syn) && !HasFlag(f1, Ack) && !HasFlag(f1, Fin))
            && (HasFlag(f2, Syn) && !HasFlag(f2, Ack) && HasFlag(f2, Fin))
            && (HasFlag(f3, Syn) && HasFlag(f3, Ack) && HasFlag(f3, Fin))
            && (!HasFlag(f4, Syn) && HasFlag(f4, Ack) && HasFlag(f4, Fin))
  {
    Pow2Values();
    NoHighBit(0, 0, 13);
    NoHighBit(0, 0, 14);
    NoHighBit(0, 0, 15);
  }
}
