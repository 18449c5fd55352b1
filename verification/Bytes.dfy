/** Bytes and the fixed-width big-endian integers both file formats are built from. */
module Bytes {
  import opened Sequences

  newtype byte = b: int | 0 <= b < 256

  type bytes = seq<byte>

  const TWO_32: nat := 0x1_0000_0000
  const TWO_64: nat := 0x1_0000_0000_0000_0000

  /** The four bytes of n, most significant first. */
  function BE4(n: nat): (s: bytes)
    requires n < TWO_32
    ensures |s| == 4 && Get4(s) == n
  {
    var high := n / 256 / 256;
    [(high / 256) as byte, (high % 256) as byte, (n / 256 % 256) as byte, (n % 256) as byte]
  }

  function Get4(s: bytes): (n: nat)
    requires |s| == 4
    ensures n < TWO_32
  {
    ((s[0] as int * 256 + s[1] as int) * 256 + s[2] as int) * 256 + s[3] as int
  }

  /** The eight bytes of n, most significant first. */
  function BE8(n: nat): (s: bytes)
    requires n < TWO_64
    ensures |s| == 8 && Get8(s) == n
  {
    BE4(n / TWO_32) + BE4(n % TWO_32)
  }

  function Get8(s: bytes): (n: nat)
    requires |s| == 8
    ensures n < TWO_64
  {
    Get4(s[..4]) * TWO_32 + Get4(s[4..])
  }

  /** The most significant byte comes first. */
  lemma BigEndian(a: byte, b: byte, c: byte, d: byte)
    ensures Get4([a, b, c, d]) == a as int * 0x100_0000 + b as int * 0x1_0000 + c as int * 0x100 + d as int
    ensures Get8([a, b, c, d, a, b, c, d]) == Get4([a, b, c, d]) * 0x1_0000_0001
  {
    var s := [a, b, c, d, a, b, c, d];
    assert s[..4] == [a, b, c, d] && s[4..] == [a, b, c, d];
  }

  lemma DivRem(q: nat, r: nat)
    requires r < 256
    ensures (q * 256 + r) / 256 == q && (q * 256 + r) % 256 == r
  {
  }

  /** Every four bytes are the encoding of exactly one number. */
  lemma BE4OfGet4(s: bytes)
    requires |s| == 4
    ensures BE4(Get4(s)) == s
  {
    var h0 := s[0] as int;
    var h1 := h0 * 256 + s[1] as int;
    var h2 := h1 * 256 + s[2] as int;
    DivRem(h0, s[1] as int);
    DivRem(h1, s[2] as int);
    DivRem(h2, s[3] as int);
    assert Get4(s) == h2 * 256 + s[3] as int;
    assert Get4(s) / 256 == h2 && h2 / 256 == h1 && h1 / 256 == h0;
  }

  lemma BE8OfGet8(s: bytes)
    requires |s| == 8
    ensures BE8(Get8(s)) == s
  {
    var hi, lo := Get4(s[..4]), Get4(s[4..]);
    BE4OfGet4(s[..4]);
    BE4OfGet4(s[4..]);
    assert Get8(s) / TWO_32 == hi && Get8(s) % TWO_32 == lo;
    assert s == s[..4] + s[4..];
  }

  lemma SmallMod(n: nat)
    requires n < TWO_64
    ensures n % TWO_64 == n
  {
  }

  lemma BE8Injective(m: nat, n: nat)
    requires m < TWO_64 && n < TWO_64 && BE8(m) == BE8(n)
    ensures m == n
  {
    assert Get8(BE8(m)) == m && Get8(BE8(n)) == n;
  }

  /** The Go conversion int64(uint64(n)): the signed number with the same low 64 bits. */
  function Signed64(n: nat): (i: int)
    ensures -(TWO_64 / 2) <= i < TWO_64 / 2
  {
    var low := n % TWO_64;
    if low < TWO_64 / 2 then low else low - TWO_64
  }

  lemma Signed64Injective(a: nat, b: nat)
    requires Signed64(a) == Signed64(b)
    ensures a % TWO_64 == b % TWO_64
  {
  }

  /** Adding to an int64 that already wrapped. */
  function Add64(a: int, n: nat): int {
    Signed64((a + n) % TWO_64)
  }

  lemma Add64Signed(m: nat, n: nat)
    ensures Add64(Signed64(m), n) == Signed64(m + n)
  {
    var low := m % TWO_64;
    assert m == m / TWO_64 * TWO_64 + low;
    assert (Signed64(m) + n) % TWO_64 == (low + n) % TWO_64;
    assert (m + n) % TWO_64 == (low + n) % TWO_64;
  }

  function ByteRank(b: byte): int {
    b as int
  }

  /** Concatenation of a list of pieces. */
  function Flat(pieces: seq<bytes>): bytes {
    if pieces == [] then [] else pieces[0] + Flat(pieces[1..])
  }

  lemma FlatAppend(a: seq<bytes>, b: seq<bytes>)
    ensures Flat(a + b) == Flat(a) + Flat(b)
  {
    if a == [] {
      assert a + b == b;
    } else {
      FlatAppend(a[1..], b);
      assert (a + b)[1..] == a[1..] + b;
      ConcatAssoc(a[0], Flat(a[1..]), Flat(b));
    }
  }

  lemma FlatSnoc(a: seq<bytes>, x: bytes)
    ensures Flat(a + [x]) == Flat(a) + x
  {
    FlatAppend(a, [x]);
    assert Flat([x]) == x + Flat([]);
  }

  lemma FlatStep(a: seq<bytes>, i: nat)
    requires i < |a|
    ensures Flat(a[..i + 1]) == Flat(a[..i]) + a[i]
  {
    assert a[..i + 1] == a[..i] + [a[i]];
    FlatSnoc(a[..i], a[i]);
  }

  /** Lower-case hexadecimal digits, two for each byte. */
  function HexDigit(n: nat): (d: byte)
    requires n < 16
  {
    if n < 10 then (48 + n) as byte else (87 + n) as byte
  }

  function Hex(s: bytes): (h: bytes)
    ensures |h| == 2 * |s|
  {
    if s == [] then [] else [HexDigit(s[0] as int / 16), HexDigit(s[0] as int % 16)] + Hex(s[1..])
  }

  lemma {:induction false} HexInjective(a: bytes, b: bytes)
    requires Hex(a) == Hex(b)
    ensures a == b
  {
    if a != [] && b != [] {
      assert Hex(a)[0] == Hex(b)[0] && Hex(a)[1] == Hex(b)[1];
      assert Hex(a)[2..] == Hex(a[1..]) && Hex(b)[2..] == Hex(b[1..]);
      HexInjective(a[1..], b[1..]);
      assert a[0] == b[0] by {
        assert a[0] as int / 16 == b[0] as int / 16 && a[0] as int % 16 == b[0] as int % 16;
      }
    }
  }
}
