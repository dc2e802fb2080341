/** The Internet checksum of section 1 of RFC 1071: the one's complement sum of 16-bit words,
    with every carry out of the 16-bit accumulator added back in ("end-around carry").
    `ones_complement_sum` (used by src/segment.rs) and `checksum1`/`verify_checksum1`
    (declared in tpp-client/checksum.h) are the two users; neither body is part of the
    repository, so this module defines them from the RFC and from the repository's tests. */
module Checksum {
  import opened Bits
  import opened Bytes

  /** The one's complement modulus 2^16 - 1; 0xFFFF is also the all-ones identity. */
  const M: nat := 0xFFFF

  /** a and b agree modulo 2^16 - 1. */
  predicate Cong(a: int, b: int) {
    (a - b) % M == 0
  }

  /** The 16-bit word made of two bytes laid out in the given order. */
  function Word(first: u8, second: u8, order: ByteOrder): (w: u16)
  {
    if order == BigEndian then first * 256 + second else second * 256 + first
  }

  /** Swapping the two bytes of a word (what `htons`/`ntohs` do on a little-endian host). */
  function Swap16(w: u16): (r: u16)
    ensures Word(w / 256, w % 256, LittleEndian) == r
    ensures r / 256 == w % 256 && r % 256 == w / 256
  {
    (w % 256) * 256 + w / 256
  }

  /** The consecutive 16-bit words of a byte sequence read in `order`. An odd trailing byte
      is padded with a zero byte after it: in big-endian order it becomes the high byte of
      the last word. */
  function Words(b: seq<u8>, order: ByteOrder): (ws: seq<u16>)
    ensures |ws| == (|b| + 1) / 2
    decreases |b|
  {
    if |b| == 0 then []
    else if |b| == 1 then [Word(b[0], 0, order)]
    else [Word(b[0], b[1], order)] + Words(b[2..], order)
  }

  /** Word i is made of bytes 2i and 2i + 1, the latter 0 past the end. */
  lemma {:induction false} WordsAt(b: seq<u8>, order: ByteOrder, i: nat)
    requires i < (|b| + 1) / 2
    ensures Words(b, order)[i] == Word(b[2 * i], if 2 * i + 1 < |b| then b[2 * i + 1] else 0, order)
    decreases |b|
  {
    if i > 0 {
      WordsAt(b[2..], order, i - 1);
    }
  }

  predicate AllZero(b: seq<u8>) {
    forall i :: 0 <= i < |b| ==> b[i] == 0
  }

  /** The plain integer sum of a sequence of words. */
  function Total(ws: seq<u16>): nat
  {
    if ws == [] then 0 else ws[0] + Total(ws[1..])
  }

  /** The value a one's complement sum with end-around carry takes on a plain total t:
      0 only for t == 0, otherwise the representative of t modulo 2^16 - 1 in [1, 0xFFFF]. */
  function Norm(t: nat): (r: u16)
    ensures r == 0 <==> t == 0
    ensures t > 0 ==> 1 <= r && Cong(r, t)
  {
    if t == 0 then 0 else (t - 1) % M + 1
  }

  /** A positive total that fits in 16 bits is its own sum. */
  lemma NormSmall(t: nat)
    requires 0 < t <= M
    ensures Norm(t) == t
  {
    DivUnique(t - 1, M, 0, t - 1);
  }

  /** One 16-bit addition with end-around carry: `(s & 0xffff) + (s >> 16)`. */
  function OnesAdd(a: u16, b: u16): (r: u16)
    ensures r == Norm(a + b)
  {
    var s := a + b;
    s % 0x1_0000 + s / 0x1_0000
  }

  /** Left fold of `OnesAdd` over the words, starting from `acc`. */
  function Fold(acc: u16, ws: seq<u16>): (r: u16)
    ensures r == Norm(acc + Total(ws))
    decreases |ws|
  {
    if ws == [] then acc
    else
      var r := Fold(OnesAdd(acc, ws[0]), ws[1..]);
      NormAdd(acc + ws[0], Total(ws[1..]));
      r
  }

  /** The RFC 1071 sum (not complemented) of a byte sequence whose words are read in `order`. */
  function OnesSum(b: seq<u8>, order: ByteOrder): (r: u16)
    ensures r == Norm(Total(Words(b, order)))
  {
    Fold(0, Words(b, order))
  }

  /** The sum is zero exactly for an all-zero buffer. */
  lemma OnesSumZero(b: seq<u8>, order: ByteOrder)
    ensures OnesSum(b, order) == 0 <==> AllZero(b)
  {
    TotalZero(b, order);
  }

  /** `ones_complement_sum` of src/segment.rs: the RFC 1071 sum over big-endian words,
      returned without complementing it. */
  function OnesComplementSum(b: seq<u8>): (r: u16)
    ensures r == Norm(Total(Words(b, BigEndian)))
  {
    OnesSum(b, BigEndian)
  }

  /** `checksum1(buf, size)` of tpp-client/checksum.h: the one's complement of the RFC 1071 sum
      of `buf[..size]`, whose words are read in the host's byte order. */
  function Checksum1(buf: seq<u8>, host: ByteOrder): (c: u16)
    ensures c == 0xFFFF - OnesSum(buf, host)
  {
    var s := OnesSum(buf, host);
    Pow2Values();
    BitNot(s, 16)
  }

  /** `verify_checksum1(buf, size)`: the sum over the buffer, its checksum field included, is
      the all-ones identity. */
  predicate VerifyChecksum1(buf: seq<u8>, host: ByteOrder) {
    OnesSum(buf, host) == 0xFFFF
  }

  // ---------------------------------------------------------------------------------------
  // Arithmetic of the end-around carry

  lemma CongTrans(a: int, b: int, c: int)
    requires Cong(a, b) && Cong(b, c)
    ensures Cong(a, c)
  {
    var k1, k2 := (a - b) / M, (b - c) / M;
    assert a - b == M * k1;
    assert b - c == M * k2;
    assert a - c == M * (k1 + k2);
  }

  lemma CongOfMultiple(a: int, b: int, k: int)
    requires a - b == M * k
    ensures Cong(a, b)
  {
  }

  lemma CongAdd(a: int, b: int, c: int, d: int)
    requires Cong(a, b) && Cong(c, d)
    ensures Cong(a + c, b + d)
  {
    var k1, k2 := (a - b) / M, (c - d) / M;
    assert a - b == M * k1;
    assert c - d == M * k2;
    CongOfMultiple(a + c, b + d, k1 + k2);
  }

  lemma CongScale(a: int, b: int, n: int)
    requires Cong(a, b)
    ensures Cong(n * a, n * b)
  {
    var k := (a - b) / M;
    assert a - b == M * k;
    assert n * a - n * b == n * (a - b);
    assert n * (a - b) == M * (n * k);
    CongOfMultiple(n * a, n * b, n * k);
  }

  /** Two values in [1, 0xFFFF] that agree modulo 2^16 - 1 are equal. */
  lemma CongInRange(a: int, b: int)
    requires 1 <= a <= M && 1 <= b <= M && Cong(a, b)
    ensures a == b
  {
  }

  lemma NormCong(x: nat, y: nat)
    requires x > 0 && y > 0 && Cong(x, y)
    ensures Norm(x) == Norm(y)
  {
    CongTrans(Norm(x), x, y);
    CongTrans(Norm(x), y, Norm(y));
    CongInRange(Norm(x), Norm(y));
  }

  /** Adding into a normalised accumulator is adding into the plain total. */
  lemma NormAdd(x: nat, y: nat)
    ensures Norm(Norm(x) + y) == Norm(x + y)
  {
    if x > 0 {
      CongTrans(Norm(x) + y, x + y, x + y);
      NormCong(Norm(x) + y, x + y);
    }
  }

  /** Storing the complement of a sum in a zero checksum word makes the new sum all ones
      (section 1 of RFC 1071, step (3)). */
  lemma NormComplement(t: nat)
    ensures Norm(t + (M - Norm(t))) == M
  {
    if t > 0 {
      var u := t + (M - Norm(t));
      CongTrans(u, M, M);
      NormCong(u, M);
    }
  }

  /** The checksum word `generate_checksum` of src/segment.rs stores (0 for a zero sum,
      otherwise the complement), added to the total it was computed from, sums to all ones
      exactly when that total is not zero. */
  lemma GeneratedWordSum(t: nat)
    ensures var c := if Norm(t) == 0 then 0 else M - Norm(t);
            Norm(t + c) == M <==> t != 0
  {
    NormComplement(t);
  }

  // ---------------------------------------------------------------------------------------
  // Words and totals

  lemma {:induction false} TotalAppend(a: seq<u16>, b: seq<u16>)
    ensures Total(a + b) == Total(a) + Total(b)
    decreases |a|
  {
    if a != [] {
      assert (a + b)[0] == a[0];
      assert (a + b)[1..] == a[1..] + b;
      TotalAppend(a[1..], b);
      assert Total(a + b) == a[0] + Total(a[1..] + b);
    } else {
      assert a + b == b;
    }
  }

  lemma {:induction false} WordsAppend(a: seq<u8>, b: seq<u8>, order: ByteOrder)
    requires |a| % 2 == 0
    ensures Words(a + b, order) == Words(a, order) + Words(b, order)
    decreases |a|
  {
    if |a| > 0 {
      assert (a + b)[0] == a[0] && (a + b)[1] == a[1];
      assert (a + b)[2..] == a[2..] + b;
      WordsAppend(a[2..], b, order);
    } else {
      assert a + b == b;
    }
  }

  /** The total of a byte sequence split at an even offset. */
  lemma TotalSplit(a: seq<u8>, b: seq<u8>, order: ByteOrder)
    requires |a| % 2 == 0
    ensures Total(Words(a + b, order)) == Total(Words(a, order)) + Total(Words(b, order))
  {
    WordsAppend(a, b, order);
    TotalAppend(Words(a, order), Words(b, order));
  }

  /** The total of `a`, then one word `[x, y]`, then `c`, when `a` has even length. */
  lemma TotalAroundWord(a: seq<u8>, x: u8, y: u8, c: seq<u8>, order: ByteOrder)
    requires |a| % 2 == 0
    ensures Total(Words(a + [x, y] + c, order))
         == Total(Words(a, order)) + Word(x, y, order) + Total(Words(c, order))
  {
    TotalSplit(a + [x, y], c, order);
    TotalSplit(a, [x, y], order);
    assert Words([x, y], order) == [Word(x, y, order)];
  }

  lemma {:induction false} TotalZero(b: seq<u8>, order: ByteOrder)
    ensures Total(Words(b, order)) == 0 <==> AllZero(b)
    decreases |b|
  {
    if |b| >= 2 {
      TotalZero(b[2..], order);
      assert forall i :: 2 <= i < |b| ==> b[i] == b[2..][i - 2];
    }
  }

  // ---------------------------------------------------------------------------------------
  // Byte-order independence (section 2(B) of RFC 1071)

  lemma SwapCong(w: u16)
    ensures Cong(Swap16(w), 256 * w)
  {
    var h, l := w / 256, w % 256;
    assert w == 256 * h + l;
    assert Swap16(w) == 256 * l + h;
    CongOfMultiple(Swap16(w), 256 * w, -h);
  }

  lemma {:induction false} TotalSwapped(b: seq<u8>)
    ensures Cong(Total(Words(b, LittleEndian)), 256 * Total(Words(b, BigEndian)))
    decreases |b|
  {
    if |b| > 0 {
      var rest := if |b| > 1 then b[2..] else [];
      var wb, wl := Words(b, BigEndian), Words(b, LittleEndian);
      assert wb[1..] == Words(rest, BigEndian);
      assert wl[1..] == Words(rest, LittleEndian);
      assert wl[0] == Swap16(wb[0]);
      TotalSwapped(rest);
      SwappedWordStep(wb[0], Total(wb[1..]), Total(wl[1..]));
    }
  }

  lemma SwappedWordStep(w: u16, be: nat, le: nat)
    requires Cong(le, 256 * be)
    ensures Cong(Swap16(w) + le, 256 * (w + be))
  {
    SwapCong(w);
    CongAdd(Swap16(w), 256 * w, le, 256 * be);
    assert 256 * w + 256 * be == 256 * (w + be);
  }

  /** A sum over words read in little-endian order is the byte swap of the big-endian sum. */
  lemma ByteOrderIndependence(b: seq<u8>)
    ensures OnesSum(b, LittleEndian) == Swap16(OnesSum(b, BigEndian))
  {
    TotalSwapped(b);
    TotalZero(b, BigEndian);
    TotalZero(b, LittleEndian);
    SwapNorm(Total(Words(b, BigEndian)), Total(Words(b, LittleEndian)));
  }

  lemma SwapNorm(be: nat, le: nat)
    requires Cong(le, 256 * be) && (le == 0 <==> be == 0)
    ensures Norm(le) == Swap16(Norm(be))
  {
    if be > 0 {
      var n := Norm(be);
      SwapNonzero(n);
      SwapCong(n);
      CongScale(n, be, 256);
      CongChain(Swap16(n), 256 * n as int, 256 * be, le, Norm(le));
    }
  }

  /** Values in [1, 0xFFFF] linked by a chain of congruences are equal. */
  lemma CongChain(a: int, b: int, c: int, d: int, e: int)
    requires Cong(a, b) && Cong(b, c) && Cong(d, c) && Cong(e, d)
    requires 1 <= a <= M && 1 <= e <= M
    ensures a == e
  {
    CongTrans(a, b, c);
    CongSym(d, c);
    CongTrans(a, c, d);
    CongSym(e, d);
    CongTrans(a, d, e);
    CongInRange(a, e);
  }

  lemma CongSym(a: int, b: int)
    requires Cong(a, b)
    ensures Cong(b, a)
  {
    var k := (a - b) / M;
    assert a - b == M * k;
    CongOfMultiple(b, a, -k);
  }

  lemma SwapNonzero(w: u16)
    requires w != 0
    ensures Swap16(w) != 0
  {
  }

  /** Whether a buffer verifies does not depend on the order its words are read in. */
  lemma VerifyIndependentOfOrder(b: seq<u8>)
    ensures VerifyChecksum1(b, LittleEndian) <==> VerifyChecksum1(b, BigEndian)
    ensures VerifyChecksum1(b, BigEndian) <==> OnesComplementSum(b) == 0xFFFF
  {
    ByteOrderIndependence(b);
  }

  // ---------------------------------------------------------------------------------------
  // What the checksum detects

  /** The weight of byte j within its word. */
  function ByteWeight(j: nat, order: ByteOrder): nat {
    if (j % 2 == 0) == (order == BigEndian) then 256 else 1
  }

  lemma {:induction false} TotalUpdate(b: seq<u8>, j: nat, v: u8, order: ByteOrder)
    requires j < |b|
    ensures Total(Words(b[j := v], order)) + b[j] * ByteWeight(j, order)
         == Total(Words(b, order)) + v * ByteWeight(j, order)
    decreases |b|
  {
    if j >= 2 {
      assert b[j := v][2..] == b[2..][j - 2 := v];
      TotalUpdate(b[2..], j - 2, v, order);
      assert ByteWeight(j - 2, order) == ByteWeight(j, order);
    }
  }

  /** Bit k of a byte flipped (`x ^ (1 << k)`). */
  function FlipBit(x: u8, k: nat): (r: u8)
    requires k < 8
    ensures r == x + Pow2(k) || r == x - Pow2(k)
    ensures Bit(r, k) <==> !Bit(x, k)
  {
    if Bit(x, k) then
      FlipSetBit(x, k);
      x - Pow2(k)
    else
      Pow2Values();
      SetBitBound(x, 8, k);
      FlipClearBit(x, k);
      x + Pow2(k)
  }

  /** A single flipped bit anywhere in a buffer that verified makes it fail to verify. */
  lemma SingleBitFlipDetected(b: seq<u8>, j: nat, k: nat, order: ByteOrder)
    requires j < |b| && k < 8
    requires OnesSum(b, order) == 0xFFFF
    ensures OnesSum(b[j := FlipBit(b[j], k)], order) != 0xFFFF
  {
    var v := FlipBit(b[j], k);
    TotalUpdate(b, j, v, order);
    var t := Total(Words(b, order));
    var t' := Total(Words(b[j := v], order));
    var p, w := Pow2(k), ByteWeight(j, order);
    PowMonotone(k, 7);
    assert Pow2(7) == 128;
    var d := p * w;
    assert 1 <= d <= 0x8000 by {
      if w == 1 { assert d == p; } else { assert d == 256 * p; }
    }
    assert t' == t + d || t' == t - d by {
      assert v == b[j] + p || v == b[j] - p;
      assert v * w == b[j] * w + d || v * w == b[j] * w - d;
    }
    ChangeBreaksSum(t, t', d);
  }

  /** Changing a total that sums to all ones by less than 2^16 - 1 breaks the sum. */
  lemma ChangeBreaksSum(t: nat, t': nat, d: int)
    requires 1 <= d < M && (t' == t + d || t' == t - d)
    requires Norm(t) == M
    ensures Norm(t') != M
  {
    if Norm(t') == M {
      CongTrans(t', Norm(t'), 0);
      CongTrans(t, Norm(t), 0);
      CongTrans(t', 0, t);
      assert false;
    }
  }
}
