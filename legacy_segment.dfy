/** The older segment codec of src/segment/mod.rs. Its layout, flags and `to_byte_vec` are
    those of module Segment; it differs in three ways: `new` leaves every field 0 without
    storing a checksum, `set_data` leaves the size field alone, and `generate_checksum`
    folds its words with a step that divides by 2^15 where the end-around carry of
    RFC 1071 divides by 2^16. */
module LegacySegment {
  import opened Bits
  import opened Bytes
  import opened Checksum
  import opened Codec = Segment

  // ---------------------------------------------------------------------------------------
  // Words

  /** The argument of `u8_to_u16_vec` after its in-place push: a 0 byte appended to an odd
      length. */
  function Padded(v: seq<u8>): (p: seq<u8>)
    ensures |p| % 2 == 0 && |p| == |v| + |v| % 2
    ensures p[..|v|] == v && (|v| % 2 == 1 ==> p[|v|] == 0)
  {
    if |v| % 2 == 1 then v + [0] else v
  }

  /** The iterator chain of `u8_to_u16_vec`: the pairs `(p[j], p[j + 1])` of `zip` with
      `skip(1)`, those at an even `j`, each joined high byte first. */
  function EvenPairWords(p: seq<u8>): (ws: seq<u16>)
    ensures |ws| == |p| / 2
    ensures forall i :: 0 <= i < |ws| ==> ws[i] == p[2 * i] as int * 256 + p[2 * i + 1] as int
  {
    seq(|p| / 2, i requires 0 <= i < |p| / 2 => p[2 * i] as int * 256 + p[2 * i + 1] as int)
  }

  /** The words `u8_to_u16_vec` returns are the RFC 1071 words of its argument as given. */
  lemma PairWordsAreWords(v: seq<u8>)
    ensures EvenPairWords(Padded(v)) == Words(v, BigEndian)
  {
    var p, ws := Padded(v), EvenPairWords(Padded(v));
    forall i | 0 <= i < |ws| ensures ws[i] == Words(v, BigEndian)[i] {
      WordsAt(v, BigEndian, i);
      assert p[2 * i] == v[2 * i];
      if 2 * i + 1 < |v| {
        assert p[2 * i + 1] == v[2 * i + 1];
      }
    }
  }

  // ---------------------------------------------------------------------------------------
  // The fold, as written

  /** The largest value the accumulator of the fold can take. */
  const AccBound: nat := 0x1_0002

  /** One step of the fold: `(x + acc) % (1 << 16) + (x + acc) / (1 << 15)`. */
  function LegacyStep(acc: nat, x: u16): (r: nat)
    requires acc <= AccBound
    ensures r <= AccBound
    ensures acc + x < 0x8000 ==> r == acc + x
    ensures 0x8000 <= acc + x < 0x1_0000 ==> r == acc + x + 1
  {
    StepBound(acc + x);
    (x + acc) % 0x1_0000 + (x + acc) / 0x8000
  }

  lemma StepBound(sum: nat)
    requires sum <= AccBound + 0xFFFF
    ensures sum % 0x1_0000 + sum / 0x8000 <= AccBound
    ensures sum < 0x8000 ==> sum % 0x1_0000 + sum / 0x8000 == sum
    ensures 0x8000 <= sum < 0x1_0000 ==> sum % 0x1_0000 + sum / 0x8000 == sum + 1
  {
    if sum < 0x8000 {
      DivUnique(sum, 0x1_0000, 0, sum);
      DivUnique(sum, 0x8000, 0, sum);
    } else if sum < 0x1_0000 {
      DivUnique(sum, 0x1_0000, 0, sum);
      DivUnique(sum, 0x8000, 1, sum - 0x8000);
    } else if sum < 0x1_8000 {
      DivUnique(sum, 0x1_0000, 1, sum - 0x1_0000);
      DivUnique(sum, 0x8000, 2, sum - 0x1_0000);
    } else if sum < 0x2_0000 {
      DivUnique(sum, 0x1_0000, 1, sum - 0x1_0000);
      DivUnique(sum, 0x8000, 3, sum - 0x1_8000);
    } else {
      DivUnique(sum, 0x1_0000, 2, sum - 0x2_0000);
      DivUnique(sum, 0x8000, 4, sum - 0x2_0000);
    }
  }

  /** The `fold` over the words, from `acc`. The accumulator never exceeds 0x10002, so the
      u32 additions of the source never wrap. */
  function LegacyFold(acc: nat, ws: seq<u16>): (r: nat)
    requires acc <= AccBound
    ensures r <= AccBound
    decreases |ws|
  {
    if ws == [] then acc else LegacyFold(LegacyStep(acc, ws[0]), ws[1..])
  }

  /** As long as the running total stays below 2^15 the fold is the plain total. */
  lemma {:induction false} LegacyFoldPlain(acc: nat, ws: seq<u16>)
    requires acc + Total(ws) < 0x8000
    ensures LegacyFold(acc, ws) == acc + Total(ws)
    decreases |ws|
  {
    if ws != [] {
      LegacyFoldPlain(acc + ws[0], ws[1..]);
    }
  }

  lemma {:induction false} LegacyFoldAppend(acc: nat, a: seq<u16>, b: seq<u16>)
    requires acc <= AccBound
    ensures LegacyFold(acc, a + b) == LegacyFold(LegacyFold(acc, a), b)
    decreases |a|
  {
    if a == [] {
      assert a + b == b;
    } else {
      assert (a + b)[0] == a[0] && (a + b)[1..] == a[1..] + b;
      LegacyFoldAppend(LegacyStep(acc, a[0]), a[1..], b);
    }
  }

  lemma LegacyFoldOne(acc: nat, x: u16)
    requires acc <= AccBound
    ensures LegacyFold(acc, [x]) == LegacyStep(acc, x)
  {
    assert [x][1..] == [];
  }

  /** The bytes `generate_checksum` sums: the 18 bytes in front of the checksum field, then
      the payload. */
  function ChecksumInput(s: SegmentData): (b: seq<u8>)
    ensures |b| == 18 + |s.payload| && b[..18] == HeaderBytes(s) && b[18..] == s.payload
  {
    ToBytes(s)[..18] + s.payload
  }

  /** The words of that input: the nine header words, then the payload's. */
  lemma InputWords(s: SegmentData)
    ensures EvenPairWords(Padded(ChecksumInput(s))) == HeaderWords(s) + Words(s.payload, BigEndian)
  {
    PairWordsAreWords(ChecksumInput(s));
    assert ChecksumInput(s) == HeaderBytes(s) + s.payload;
    WordsAppend(HeaderBytes(s), s.payload, BigEndian);
    HeaderBytesWords(s);
    WordsOfFlatMap(HeaderWords(s));
  }

  /** What `generate_checksum` returns: the fold truncated by `as u16`, a zero sum turned
      into `!0`, then complemented. */
  function LegacyChecksum(s: SegmentData): (c: u16)
  {
    var sum := LegacyFold(0, EvenPairWords(Padded(ChecksumInput(s)))) % 0x1_0000;
    if sum == 0 then 0 else 0xFFFF - sum
  }

  /** The checksum field is not among the bytes summed. */
  lemma LegacyIgnoresChecksum(s: SegmentData, x: u16)
    ensures LegacyChecksum(s.(checksum := x)) == LegacyChecksum(s)
  {
    assert ChecksumInput(s.(checksum := x)) == ChecksumInput(s);
  }

  /** While every running total stays below 2^15 (in particular whenever the total does), the
      legacy checksum is the RFC 1071 checksum of src/segment.rs. */
  lemma LegacyAgreesBelow(s: SegmentData)
    requires Total(HeaderWords(s)) + Total(Words(s.payload, BigEndian)) < 0x8000
    ensures LegacyChecksum(s) == GeneratedChecksum(s)
  {
    var t := Total(HeaderWords(s)) + Total(Words(s.payload, BigEndian));
    InputWords(s);
    TotalAppend(HeaderWords(s), Words(s.payload, BigEndian));
    LegacyFoldPlain(0, HeaderWords(s) + Words(s.payload, BigEndian));
    HeaderSumTotal(s);
    GeneratedChecksumValue(s, t);
    if t > 0 {
      NormSmall(t);
    }
    DivUnique(t, 0x1_0000, 0, t);
  }

  // ---------------------------------------------------------------------------------------
  // The corrected fold

  /** The fold with the divisor RFC 1071 calls for: `(x + acc) / (1 << 16)`, which is the
      end-around-carry addition OnesAdd of module Checksum. */
  function CorrectedChecksum(s: SegmentData): (c: u16)
  {
    var sum := Fold(0, EvenPairWords(Padded(ChecksumInput(s))));
    if sum == 0 then 0 else 0xFFFF - sum
  }

  /** The corrected fold gives the checksum of src/segment.rs, so a segment carrying it is
      valid whenever its image is not all zero. */
  lemma CorrectedChecksumValid(s: SegmentData)
    ensures CorrectedChecksum(s) == GeneratedChecksum(s)
    ensures IsValid(s.(checksum := CorrectedChecksum(s))) <==> !AllZero(ToBytes(s.(checksum := 0)))
  {
    var t := InputTotal(s);
    CorrectedOfTotal(s, t);
    GeneratedChecksumValue(s, t);
    RegenerateValid(s);
  }

  /** The plain total of the words `generate_checksum` folds, from the field values. */
  lemma InputTotal(s: SegmentData) returns (t: nat)
    ensures t == HeaderSum(s) + Total(Words(s.payload, BigEndian))
    ensures Total(EvenPairWords(Padded(ChecksumInput(s)))) == t
  {
    InputWords(s);
    TotalAppend(HeaderWords(s), Words(s.payload, BigEndian));
    HeaderSumTotal(s);
    t := HeaderSum(s) + Total(Words(s.payload, BigEndian));
  }

  lemma CorrectedOfTotal(s: SegmentData, t: nat)
    requires Total(EvenPairWords(Padded(ChecksumInput(s)))) == t
    ensures CorrectedChecksum(s) == if t == 0 then 0 else M - Norm(t)
  {
  }

  /** The legacy checksum in terms of the fold over the header words and the payload's. */
  lemma LegacyOfWords(s: SegmentData, ws: seq<u16>)
    requires ws == HeaderWords(s) + Words(s.payload, BigEndian)
    ensures var sum := LegacyFold(0, ws) % 0x1_0000;
            LegacyChecksum(s) == if sum == 0 then 0 else 0xFFFF - sum
  {
    InputWords(s);
  }

  /** The fold as written carries one too many on a running total of 2^15: the single word
      0x8000 folds to 0x8001, where the end-around-carry sum is 0x8000. */
  lemma LegacyFoldOverCarries(ws: seq<u16>)
    requires ws == [0x8000]
    ensures LegacyFold(0, ws) == 0x8001 && Fold(0, ws) == 0x8000
  {
    LegacyFoldOne(0, 0x8000);
    assert Total(ws) == 0x8000;
  }

  /** The segment `new()` followed by `set_flag(SYN)` sums: every field 0 but the SYN bit. */
  predicate NewSyn(s: SegmentData) {
    && s.srcPort == 0 && s.dstPort == 0 && s.segSize == 0 && s.seqNum == 0 && s.ackNum == 0
    && s.flags == 0x8000 && s.payload == []
  }

  /** `new()` followed by `set_flag(SYN)`: the legacy code stores 0x7FFE; the Internet
      checksum of that segment is 0x7FFF, and the stored value fails the RFC 1071 check. */
  lemma NewSynChecksum(s: SegmentData)
    requires NewSyn(s)
    ensures LegacyChecksum(s) == 0x7FFE
    ensures CorrectedChecksum(s) == 0x7FFF
    ensures !IsValid(s.(checksum := LegacyChecksum(s)))
  {
    NewSynLegacy(s);
    var t := InputTotal(s);
    assert HeaderSum(s) == 0x8000;
    CorrectedOfTotal(s, t);
    NormSmall(t);
    var x := s.(checksum := 0x7FFE);
    assert HeaderSum(x) == 0x8000;
    IsValidValue(x, 0xFFFE);
    NormSmall(0xFFFE);
  }

  lemma NewSynLegacy(s: SegmentData)
    requires NewSyn(s)
    ensures LegacyChecksum(s) == 0x7FFE
  {
    InputWords(s);
    var zeros: seq<u16> := [0, 0, 0, 0, 0, 0, 0, 0];
    var w: u16 := 0x8000;
    assert HeaderWords(s) + Words(s.payload, BigEndian) == zeros + [w];
    assert Total(zeros) == 0;
    NewSynFold(zeros, w);
    LegacyOfWords(s, zeros + [w]);
  }

  lemma NewSynFold(zeros: seq<u16>, x: u16)
    requires Total(zeros) == 0 && x == 0x8000
    ensures LegacyFold(0, zeros + [x]) == 0x8001
  {
    LegacyFoldPlain(0, zeros);
    LegacyFoldAppend(0, zeros, [x]);
    LegacyFoldOne(0, x);
  }

  // ---------------------------------------------------------------------------------------
  // The segment

  class Segment {
    var srcPort: u16
    var dstPort: u16
    var segSize: u32
    var seqNum: u32
    var ackNum: u32
    var flags: u16
    var checksum: u16
    var payload: seq<u8>

    function Data(): SegmentData
      reads this
    {
      SegmentData(srcPort, dstPort, segSize, seqNum, ackNum, flags, checksum, payload)
    }

    /** `Segment::new()`: every field 0 and an empty payload; no checksum is stored. */
    constructor ()
      ensures Data() == SegmentData(0, 0, 0, 0, 0, 0, 0, [])
    {
      srcPort, dstPort, segSize, seqNum, ackNum, flags, checksum, payload := 0, 0, 0, 0, 0, 0, 0, [];
    }

    /** `validate`: the stored checksum equals the one generated now. */
    predicate Validate()
      reads this
    {
      checksum == LegacyChecksum(Data())
    }

    /** `set_flag`: ORs in the flag's bit, then stores a fresh checksum. */
    method SetFlag(f: Flag)
      modifies this
      ensures Data() == old(Data()).(flags := FlagSet(old(flags), f),
                                     checksum := LegacyChecksum(old(Data()).(flags := FlagSet(old(flags), f))))
      ensures Validate()
    {
      flags := FlagSet(flags, f);
      checksum := GenerateChecksum();
      LegacyIgnoresChecksum(Data(), old(checksum));
    }

    /** `set_data`: replaces the payload, leaving the size field as it was, then stores a
        fresh checksum. */
    method SetData(data: seq<u8>)
      modifies this
      ensures Data() == old(Data()).(payload := data,
                                     checksum := LegacyChecksum(old(Data()).(payload := data)))
      ensures segSize == old(segSize)
      ensures Validate()
    {
      payload := data;
      checksum := GenerateChecksum();
      LegacyIgnoresChecksum(Data(), old(checksum));
    }

    /** `to_byte_vec`, the same image as in src/segment.rs. */
    method ToByteVec() returns (image: seq<u8>)
      ensures image == ToBytes(Data())
    {
      image := U16ToU8(srcPort);
      image := image + U16ToU8(dstPort);
      image := image + U32ToU8(segSize);
      image := image + U32ToU8(seqNum);
      image := image + U32ToU8(ackNum);
      image := image + U16ToU8(flags);
      image := image + U16ToU8(checksum);
      image := image + payload;
    }

    /** `u8_to_u16_vec(v)`: pushes a 0 byte onto an odd-length `v`, then pairs its bytes. The
        new contents of `v` are returned as `padded`. */
    static method U8ToU16Vec(v: seq<u8>) returns (padded: seq<u8>, ws: seq<u16>)
      ensures padded == Padded(v)
      ensures ws == Words(v, BigEndian)
    {
      padded := v;
      if |padded| % 2 == 1 {
        padded := padded + [0];
      }
      ws := EvenPairWords(padded);
      PairWordsAreWords(v);
    }

    /** `generate_checksum`: the first 18 bytes of the image, then the payload, paired into
        words and folded. */
    method GenerateChecksum() returns (c: u16)
      ensures c == LegacyChecksum(Data())
    {
      var image := ToByteVec();
      var bytes := image[..18];
      bytes := bytes + payload;
      var padded, pairs := U8ToU16Vec(bytes);
      PairWordsAreWords(bytes);
      var sum := LegacyFold(0, pairs) % 0x1_0000;
      Pow2Values();
      if sum == 0 {
        sum := BitNot(sum, 16);
      }
      c := BitNot(sum, 16);
    }
  }
}
