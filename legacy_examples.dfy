/** The `checksum` unit test of src/segment/mod.rs, stated as lemmas about module
    LegacySegment. The test's values come in through the requires clauses. */
module LegacyExamples {
  import opened Bits
  import opened Bytes
  import opened Checksum
  import opened Segment
  import opened LegacySegment
  import opened SegmentExamples

  /** `Segment::new()` with ports, sequence number and flags then written directly; the size
      field stays 0. */
  predicate LegacyTestBase(s: SegmentData) {
    && s.srcPort == 2 && s.dstPort == 5 && s.segSize == 0
    && s.seqNum == 32 + 32 * 0x1_0000 && s.ackNum == 0 && s.flags == 4 && s.payload == []
  }

  /** Three words folded one after another. */
  lemma FoldThree(acc: nat, pre: seq<u16>, a: u16, b: u16, c: u16)
    requires LegacyFold(0, pre) == acc
    ensures LegacyFold(0, pre + [a, b, c])
         == LegacyStep(LegacyStep(LegacyStep(acc, a), b), c)
  {
    LegacyFoldAppend(0, pre, [a, b, c]);
    var r1 := LegacyStep(acc, a);
    var r2 := LegacyStep(r1, b);
    assert [a, b, c][1..] == [b, c] && [b, c][1..] == [c] && [c][1..] == [];
    assert LegacyFold(acc, [a, b, c]) == LegacyFold(r1, [b, c]);
    assert LegacyFold(r1, [b, c]) == LegacyFold(r2, [c]);
    LegacyFoldOne(r2, c);
  }

  /** The words of the test segment with payload [2, 4, 6, 8] and the given flags: eight
      header words totalling 71, the flags, then the two payload words. */
  lemma TestWords(x: SegmentData, data: seq<u8>) returns (pre: seq<u16>)
    requires x.srcPort == 2 && x.dstPort == 5 && x.segSize == 0
    requires x.seqNum == 32 + 32 * 0x1_0000 && x.ackNum == 0
    requires data == [2, 4, 6, 8] && x.payload == data
    ensures Total(pre) == 71
    ensures HeaderWords(x) + Words(x.payload, BigEndian) == pre + [x.flags, 0x0204, 0x0608]
  {
    pre := [2, 5, 0, 0, 32, 32, 0, 0];
    assert HeaderWords(x) == pre + [x.flags];
    PayloadWords(data);
    assert pre + [x.flags] + [0x0204, 0x0608] == pre + [x.flags, 0x0204, 0x0608];
  }

  lemma PayloadWords(data: seq<u8>)
    requires data == [2, 4, 6, 8]
    ensures Words(data, BigEndian) == [0x0204, 0x0608]
  {
    assert data[2..][2..] == [];
  }

  /** The legacy checksum of the test segment for a flags word whose running totals stay
      in the band [2^15, 2^16), where each step adds one extra. */
  lemma ChecksumForHighFlags(x: SegmentData, data: seq<u8>, sum: nat)
    requires x.srcPort == 2 && x.dstPort == 5 && x.segSize == 0
    requires x.seqNum == 32 + 32 * 0x1_0000 && x.ackNum == 0
    requires data == [2, 4, 6, 8] && x.payload == data
    requires 0x8000 <= 71 + x.flags && 71 + x.flags + 0x0204 + 0x0608 + 3 < 0x1_0000
    requires sum == 71 + x.flags + 0x0204 + 0x0608 + 3
    ensures LegacyChecksum(x) == 0xFFFF - sum
  {
    var pre := TestWords(x, data);
    FoldHigh(pre, x.flags, sum);
    ChecksumOfFold(x, pre + [x.flags, 0x0204, 0x0608], sum);
  }

  /** The legacy checksum from the value of the fold, when that fits in 16 bits. */
  lemma ChecksumOfFold(x: SegmentData, ws: seq<u16>, sum: nat)
    requires ws == HeaderWords(x) + Words(x.payload, BigEndian)
    requires LegacyFold(0, ws) == sum && 0 < sum < 0x1_0000
    ensures LegacyChecksum(x) == 0xFFFF - sum
  {
    LegacyOfWords(x, ws);
    DivUnique(sum, 0x1_0000, 0, sum);
  }

  /** The fold over the test's words when the flags word lifts the running total into the
      band [2^15, 2^16): one extra per remaining step. */
  lemma FoldHigh(pre: seq<u16>, f: u16, sum: nat)
    requires Total(pre) == 71
    requires 0x8000 <= 71 + f && 71 + f + 0x0204 + 0x0608 + 2 < 0x1_0000
    requires sum == 71 + f + 0x0204 + 0x0608 + 3
    ensures LegacyFold(0, pre + [f, 0x0204, 0x0608]) == sum
  {
    LegacyFoldPlain(0, pre);
    FoldThree(71, pre, f, 0x0204, 0x0608);
    var r1 := LegacyStep(71, f);
    var r2 := LegacyStep(r1, 0x0204);
    assert r2 == r1 + 0x0205;
  }

  /** `set_data(vec![2, 4, 6, 8])` stores 63400. */
  lemma LegacyChecksumValue(s: SegmentData, data: seq<u8>)
    requires LegacyTestBase(s) && data == [2, 4, 6, 8]
    ensures LegacyChecksum(s.(payload := data)) == 63400
  {
    var x := s.(payload := data);
    var pre := TestWords(x, data);
    assert Total(pre + [x.flags, 0x0204, 0x0608]) == 2135 by {
      TotalAppend(pre, [x.flags, 0x0204, 0x0608]);
      assert [4, 0x0204, 0x0608][1..] == [0x0204, 0x0608];
    }
    LegacyFoldPlain(0, pre + [x.flags, 0x0204, 0x0608]);
    ChecksumOfFold(x, pre + [x.flags, 0x0204, 0x0608], 2135);
  }

  /** The rest of the test: `set_flag(SYN)` stores 30629, different from 63400, and the
      segment validates; OR-ing bit 1 into the flags afterwards makes it fail to validate,
      since the checksum generated then is 30627. */
  lemma LegacyChecksumFlags(s: SegmentData, data: seq<u8>)
    requires LegacyTestBase(s) && data == [2, 4, 6, 8]
    ensures var s1 := s.(payload := data, checksum := LegacyChecksum(s.(payload := data)));
            var f := FlagSet(s1.flags, Syn);
            var s2 := s1.(flags := f, checksum := LegacyChecksum(s1.(flags := f)));
            && s2.checksum == 30629 && s2.checksum != s1.checksum
            && s2.checksum == LegacyChecksum(s2)
            && var g := BitOr(s2.flags, 2);
               g < 0x1_0000 && s2.(flags := g).checksum != LegacyChecksum(s2.(flags := g))
  {
    LegacyChecksumValue(s, data);
    var s1 := s.(payload := data, checksum := 63400);
    SynOnFour();
    var y := s1.(flags := 0x8004);
    ChecksumForHighFlags(y, data, 34906);
    var s2 := y.(checksum := 30629);
    LegacyIgnoresChecksum(y, 30629);
    BitOneOnSyn();
    var z := s2.(flags := 0x8006);
    ChecksumForHighFlags(z, data, 34908);
  }
}
