/** Fixed-width unsigned integers and the big-endian packing helpers of src/utils.rs.
    Shifts and masks are written with the operators of module Bits, as the source writes
    them; the contracts say what value or bytes result. */
module Bytes {
  import opened Bits

  type u8 = x: int | 0 <= x < 0x100
  type u16 = x: int | 0 <= x < 0x1_0000
  type u32 = x: int | 0 <= x < 0x1_0000_0000

  /** The order in which a host lays out the bytes of a multi-byte integer. */
  datatype ByteOrder = BigEndian | LittleEndian

  /** Reduction modulo 2^32, as Rust's `wrapping_add`/`wrapping_sub` and C unsigned arithmetic do. */
  function Wrap32(x: int): (r: u32)
    ensures 0 <= x < 0x1_0000_0000 ==> r == x
  {
    x % 0x1_0000_0000
  }

  /** `buf_to_u16`: `(buf[0] as u16) << 8 | (buf[1] as u16)`. Indexing demands two bytes. */
  function BufToU16(buf: seq<u8>): (r: u16)
    requires |buf| >= 2
    ensures r == buf[0] as int * 256 + buf[1] as int
  {
    OrShifted(buf[0], buf[1], 8);
    Pow2Values();
    BitOr(buf[0] * Pow2(8), buf[1])
  }

  /** `buf_to_u32`: two `buf_to_u16` halves, `(hi as u32) << 16 | lo`. Slicing demands four bytes. */
  function BufToU32(buf: seq<u8>): (r: u32)
    requires |buf| >= 4
    ensures r == buf[0] as int * 0x100_0000 + buf[1] as int * 0x1_0000 + buf[2] as int * 0x100 + buf[3] as int
  {
    var hi, lo := BufToU16(buf[0..2]), BufToU16(buf[2..4]);
    OrShifted(hi, lo, 16);
    Pow2Values();
    BitOr(hi * Pow2(16), lo)
  }

  /** `u16_to_u8`: `[(v >> 8) as u8, (v & 0xff) as u8]`. */
  function U16ToU8(v: u16): (r: seq<u8>)
    ensures |r| == 2 && r[0] == v / 256 && r[1] == v % 256
  {
    AndLowMask(v, 8);
    Pow2Values();
    [v / Pow2(8), BitAnd(v, Pow2(8) - 1)]
  }

  /** `u32_to_u16`: `[(v >> 16) as u16, (v & 0xffff) as u16]`. */
  function U32ToU16(v: u32): (r: seq<u16>)
    ensures |r| == 2 && r[0] == v / 0x1_0000 && r[1] == v % 0x1_0000
  {
    AndLowMask(v, 16);
    Pow2Values();
    [v / Pow2(16), BitAnd(v, Pow2(16) - 1)]
  }

  /** The `flat_map(u16_to_u8)` over a sequence of 16-bit words. */
  function FlatMapU16ToU8(ws: seq<u16>): (r: seq<u8>)
    ensures |r| == 2 * |ws|
  {
    if ws == [] then [] else U16ToU8(ws[0]) + FlatMapU16ToU8(ws[1..])
  }

  /** `u32_to_u8`: the halves of `u32_to_u16`, each split by `u16_to_u8`. */
  function U32ToU8(v: u32): (r: seq<u8>)
    ensures |r| == 4
    ensures r == U16ToU8(v / 0x1_0000) + U16ToU8(v % 0x1_0000)
    ensures r[0] as int * 0x100_0000 + r[1] as int * 0x1_0000 + r[2] as int * 0x100 + r[3] as int == v
  {
    var ws := U32ToU16(v);
    assert FlatMapU16ToU8(ws) == U16ToU8(ws[0]) + FlatMapU16ToU8(ws[1..]);
    assert FlatMapU16ToU8(ws[1..]) == U16ToU8(ws[1]) + FlatMapU16ToU8([]);
    FlatMapU16ToU8(ws)
  }

  lemma U16RoundTrip(v: u16)
    ensures BufToU16(U16ToU8(v)) == v
  {
  }

  lemma U32RoundTrip(v: u32)
    ensures BufToU32(U32ToU8(v)) == v
  {
  }

  lemma BufU16RoundTrip(buf: seq<u8>)
    requires |buf| >= 2
    ensures U16ToU8(BufToU16(buf)) == buf[..2]
  {
  }

  lemma BufU32RoundTrip(buf: seq<u8>)
    requires |buf| >= 4
    ensures U32ToU8(BufToU32(buf)) == buf[..4]
  {
    var hi, lo := BufToU16(buf[0..2]), BufToU16(buf[2..4]);
    DivUnique(BufToU32(buf), 0x1_0000, hi, lo);
    BufU16RoundTrip(buf[0..2]);
    BufU16RoundTrip(buf[2..4]);
  }

  lemma FlatMapOne(v: u16)
    ensures FlatMapU16ToU8([v]) == U16ToU8(v)
  {
    assert [v][1..] == [];
  }

  lemma {:induction false} FlatMapAppend(a: seq<u16>, b: seq<u16>)
    ensures FlatMapU16ToU8(a + b) == FlatMapU16ToU8(a) + FlatMapU16ToU8(b)
    decreases |a|
  {
    if a == [] {
      assert a + b == b;
    } else {
      var h, ta, tb := U16ToU8(a[0]), FlatMapU16ToU8(a[1..]), FlatMapU16ToU8(b);
      assert (a + b)[0] == a[0] && (a + b)[1..] == a[1..] + b;
      calc {
        FlatMapU16ToU8(a + b);
        h + FlatMapU16ToU8(a[1..] + b);
        { FlatMapAppend(a[1..], b); }
        h + (ta + tb);
        (h + ta) + tb;
      }
    }
  }
}
