/** decoder/tool: big-endian integers in byte slices. */
module BigEndian {
  import opened Util

  /** The unsigned number whose big-endian digits, base 256, are b. */
  function Value(b: Bytes): (n: nat) {
    if b == [] then 0 else 256 * Value(b[..|b| - 1]) + b[|b| - 1] as int
  }

  /** n in k big-endian bytes, the higher ones lost. */
  function Digits(n: nat, k: nat): (b: Bytes)
    ensures |b| == k
  {
    if k == 0 then [] else Digits(n / 256, k - 1) + [(n % 256) as byte]
  }

  function Pow256(k: nat): (p: nat)
    ensures p >= 1
  {
    if k == 0 then 1 else 256 * Pow256(k - 1)
  }

  lemma {:induction false} ValueOfDigits(n: nat, k: nat)
    requires n < Pow256(k)
    ensures Value(Digits(n, k)) == n
  {
    if k > 0 {
      ValueOfDigits(n / 256, k - 1);
      assert Digits(n, k)[..k - 1] == Digits(n / 256, k - 1);
    }
  }

  lemma {:induction false} DigitsOfValue(b: Bytes)
    ensures Digits(Value(b), |b|) == b && Value(b) < Pow256(|b|)
  {
    if b != [] {
      DigitsOfValue(b[..|b| - 1]);
      assert b == b[..|b| - 1] + [b[|b| - 1]];
    }
  }

  const TWO32: nat := 0x1_0000_0000
  const TWO64: nat := 0x1_0000_0000_0000_0000

  /** The low 32 bits of an int32, as conversion to unsigned gives them. */
  function Unsigned32(v: int): nat { v % TWO32 }

  /** int64(uint64): the one value in the range that is n modulo 2 to the 64. */
  function Signed64(n: nat): (r: int)
    requires n < TWO64
    ensures -0x8000_0000_0000_0000 <= r < 0x8000_0000_0000_0000 && (r - n) % TWO64 == 0
  {
    if n < TWO64 / 2 then n else n - TWO64
  }

  /** The four bytes of a 32-bit value, whether the int32 or its unsigned reading is shifted. */
  lemma LowBytes(v: int)
    ensures Digits(Unsigned32(v), 4) == 
        [(v / 0x100_0000 % 256) as byte, (v / 0x1_0000 % 256) as byte, (v / 0x100 % 256) as byte, (v % 256) as byte]
  {
    var u, q := Unsigned32(v), v / TWO32;
    assert v == u + 256 * (q * 0x100_0000);
    Shift(v, u, q * 0x100_0000);
    Shift(v / 256, u / 256, q * 0x1_0000);
    Shift(v / 256 / 256, u / 256 / 256, q * 0x100);
    Shift(v / 256 / 256 / 256, u / 256 / 256 / 256, q);
    FourDigits(u);
  }

  lemma Shift(x: int, y: int, r: int)
    requires x == y + 256 * r
    ensures x / 256 == y / 256 + r && x % 256 == y % 256
    ensures x / 256 / 256 == x / 0x1_0000 && x / 256 / 256 / 256 == x / 0x100_0000
  {
  }

  lemma FourDigits(u: nat)
    ensures Digits(u, 4) == 
        [(u / 256 / 256 / 256 % 256) as byte, (u / 256 / 256 % 256) as byte, (u / 256 % 256) as byte, (u % 256) as byte]
  {
    var a, b, c := u / 256, u / 256 / 256, u / 256 / 256 / 256;
    assert Digits(c, 1) == Digits(c / 256, 0) + [(c % 256) as byte];
    assert Digits(b, 2) == Digits(c, 1) + [(b % 256) as byte];
    assert Digits(a, 3) == Digits(b, 2) + [(a % 256) as byte];
  }

  /** byte(v >> s) is floor division: Dafny's division by a positive number rounds the same way. */
  method Itob32(v: int) returns (b: array<byte>)
    requires -0x8000_0000 <= v < 0x8000_0000
    ensures fresh(b) && b[..] == Digits(Unsigned32(v), 4)
  {
    b := new byte[4](_ => 0);
    b[0] := (v / 0x100_0000 % 256) as byte;
    b[1] := (v / 0x1_0000 % 256) as byte;
    b[2] := (v / 0x100 % 256) as byte;
    b[3] := (v % 256) as byte;
    LowBytes(v);
  }

  /** The bytes Btoi reads: `size` of them, zeros where the slice ends early. */
  function Field(b: Bytes, offset: nat, size: nat): (f: Bytes)
    ensures |f| == size
  {
    seq(size, (i: nat) => if offset + i < |b| then b[offset + i] else 0)
  }

  function IntAt(b: Bytes, offset: nat, size: nat): int
    requires size <= 8
  {
    DigitsOfValue(Field(b, offset, size));
    Pow256Grows(size, 8);
    Signed64(Value(Field(b, offset, size)))
  }

  lemma {:induction false} Pow256Grows(j: nat, k: nat)
    requires j <= k <= 8
    ensures Pow256(j) <= Pow256(k) && Pow256(8) == TWO64 && Pow256(4) == TWO32
  {
    assert Pow256(4) == 256 * 256 * 256 * 256 * Pow256(0);
    assert Pow256(8) == 256 * 256 * 256 * 256 * Pow256(4);
    if j < k { Pow256Grows(j, k - 1); }
  }

  lemma {:induction false} LeadingZeros(z: Bytes, b: Bytes)
    requires forall k :: 0 <= k < |z| ==> z[k] == 0
    ensures Value(z + b) == Value(b)
  {
    if b == [] {
      assert z + b == z;
      if z != [] { LeadingZeros(z[..|z| - 1], []); assert z[..|z| - 1] + [] == z[..|z| - 1]; }
    } else {
      LeadingZeros(z, b[..|b| - 1]);
      assert (z + b)[..|z + b| - 1] == z + b[..|b| - 1];
    }
  }

  /** The eight bytes combined as the source combines them. */
  function Combine(b: Bytes): nat
    requires |b| == 8
  {
    var n: seq<int> := seq(8, (i: nat) => if i < 8 then b[i] as int else 0);
    n[7] + n[6] * 0x100 + n[5] * 0x1_0000 + n[4] * 0x100_0000 + n[3] * 0x1_0000_0000
    + n[2] * 0x100_0000_0000 + n[1] * 0x1_0000_0000_0000 + n[0] * 0x100_0000_0000_0000
  }

  lemma CombineIsValue(b: Bytes)
    requires |b| == 8
    ensures Combine(b) == Value(b) < TWO64
  {
    DigitsOfValue(b);
    Pow256Grows(8, 8);
    var v: seq<int> := seq(8, (i: nat) => if i < 8 then Value(b[..i]) else 0);
    forall i: nat | i < 7
      ensures v[i + 1] == 256 * v[i] + b[i] as int
    {
      assert b[..i + 1][..i] == b[..i];
    }
    assert v[1] == b[0] as int;
    assert b[..8] == b && b[..8][..7] == b[..7];
    assert Value(b) == 256 * v[7] + b[7] as int;
    assert v[2] == 256 * v[1] + b[1] as int && v[3] == 256 * v[2] + b[2] as int && v[4] == 256 * v[3] + b[3] as int;
    assert v[5] == 256 * v[4] + b[4] as int && v[6] == 256 * v[5] + b[5] as int && v[7] == 256 * v[6] + b[6] as int;
  }

  method Btoi(b: array<byte>, offset: nat, size: nat) returns (n: int)
    requires size <= 8
    ensures n == IntAt(b[..], offset, size)
  {
    var bu := new byte[8](_ => 0);
    var l: int := b.Length - offset;
    if l > size { l := size; }
    var i := 0;
    while i < size && i < l
      invariant 0 <= i <= size
      invariant i <= l || i == 0
      invariant forall k :: 0 <= k < 8 ==> bu[k] == if 8 - size <= k < 8 - size + i then b[offset + k - (8 - size)] else 0
    {
      bu[i + 8 - size] := b[offset + i];
      i := i + 1;
    }
    ghost var f, z: Bytes := Field(b[..], offset, size), bu[..8 - size];
    assert bu[..] == z + f;
    LeadingZeros(z, f);
    CombineIsValue(bu[..]);
    n := Signed64(Combine(bu[..]));
  }

  /** IntAt, and so Btoi, reads back unsigned what Itob32 wrote, so it inverts it exactly on the values from 0 up. */
  lemma RoundTrip32(pre: Bytes, v: int, post: Bytes)
    requires -0x8000_0000 <= v < 0x8000_0000
    ensures IntAt(pre + Digits(Unsigned32(v), 4) + post, |pre|, 4) == Unsigned32(v)
    ensures IntAt(pre + Digits(Unsigned32(v), 4) + post, |pre|, 4) == v <==> v >= 0
  {
    var d := Digits(Unsigned32(v), 4);
    Pow256Grows(4, 8);
    assert Field(pre + d + post, |pre|, 4) == d;
    ValueOfDigits(Unsigned32(v), 4);
  }

  /** With all eight bytes every value is read back. */
  lemma RoundTrip64(pre: Bytes, v: int, post: Bytes)
    requires -0x8000_0000_0000_0000 <= v < 0x8000_0000_0000_0000
    ensures IntAt(pre + Digits(v % TWO64, 8) + post, |pre|, 8) == v
  {
    var d := Digits(v % TWO64, 8);
    Pow256Grows(8, 8);
    assert Field(pre + d + post, |pre|, 8) == d;
    ValueOfDigits(v % TWO64, 8);
  }
}
