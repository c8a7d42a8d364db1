/** io.CacheWriter: the slots that calls get by their numbers, of which there are 2^32 before they begin again. */
module CacheNumber {
  import opened Util

  /** The counter when j more numbers have been taken. */
  function Counter(c: nat, j: nat): nat { (c + j) % 0x1_0000_0000 }

  /** The slot of the j-th call that takes a number from now on. */
  function Index(c: nat, j: nat, max: nat): nat
    requires max > 0
  {
    Counter(c, j) % max
  }

  /** The next n calls get different slots. */
  ghost predicate Spread(c: nat, n: nat, max: nat)
    requires max > 0
  {
    forall i, j :: 1 <= i < j <= n ==> Index(c, i, max) != Index(c, j, max)
  }

  /** Slot i was given to one of the first d of them. */
  ghost predicate Handed(c: nat, d: nat, max: nat, i: nat)
    requires max > 0
  {
    exists j :: 1 <= j <= d && Index(c, j, max) == i
  }

  /** The next number leads to a slot that no other call of the burst got. */
  lemma NextIsFresh(c: nat, d: nat, n: nat, max: nat)
    requires max > 0 && d < n && Spread(c, n, max)
    ensures var i := Index(c, d + 1, max); Handed(c, d + 1, max, i) && !Handed(c, d, max, i)
    ensures forall i :: Handed(c, d, max, i) ==> Handed(c, d + 1, max, i)
  {
    if j :| 1 <= j <= d && Index(c, j, max) == Index(c, d + 1, max) { assert false; }
  }

  lemma OneFurther(c: nat, j: nat)
    ensures Counter(Counter(c, j), 1) == Counter(c, j + 1)
  {
  }

  lemma NotWrapped(c: nat, j: nat)
    requires c + j < 0x1_0000_0000
    ensures Counter(c, j) == c + j
  {
  }

  // ----- When they differ -----

  lemma NotMultiple(d: int, q: int, max: nat)
    requires 0 < d < max
    ensures d != q * max
  {
    if q <= 0 { assert q * max <= 0; } else { assert (q - 1) * max >= 0; }
  }

  lemma ApartBelow(a: nat, b: nat, max: nat)
    requires a < b < a + max
    ensures a % max != b % max
  {
    NotMultiple(b - a, b / max - a / max, max);
    assert b - a == (b / max - a / max) * max + (b % max - a % max);
  }

  lemma SameRemainder(x: nat, y: nat, q: int, max: nat)
    requires max > 0 && x - y == q * max
    ensures x % max == y % max
  {
    var k := q - x / max + y / max;
    assert x % max - y % max == k * max;
    if x % max > y % max { NotMultiple(x % max - y % max, k, max); }
    if x % max < y % max { NotMultiple(y % max - x % max, -k, max); }
  }

  lemma ModTwice(x: nat, m: nat, max: nat)
    requires max > 0 && m > 0 && m % max == 0
    ensures x % m % max == x % max
  {
    var p, q := x / m, m / max;
    assert x == p * m + x % m && m == q * max;
    assert p * (q * max) == p * q * max;
    SameRemainder(x, x % m, p * q, max);
  }

  /** Up to max calls get different slots unless the counter wraps, and then too if max is a power of two. */
  lemma SpreadWithin(c: nat, n: nat, max: nat)
    requires max > 0 && n <= max && (c + n < 0x1_0000_0000 || 0x1_0000_0000 % max == 0)
    ensures Spread(c, n, max)
  {
    forall i, j | 1 <= i < j <= n
      ensures Index(c, i, max) != Index(c, j, max)
    {
      ApartBelow(c + i, c + j, max);
      if c + n >= 0x1_0000_0000 {
        ModTwice(c + i, 0x1_0000_0000, max);
        ModTwice(c + j, 0x1_0000_0000, max);
      }
    }
  }

  function Slots(c: nat, n: nat, max: nat): (slots: seq<nat>)
    requires max > 0
    ensures |slots| == n && forall k :: 0 <= k < n ==> slots[k] == Index(c, k + 1, max)
  {
    seq(n, (k: nat) => Index(c, k + 1, max))
  }

  /** More calls than slots never do. */
  lemma SpreadFits(c: nat, n: nat, max: nat)
    requires max > 0 && Spread(c, n, max)
    ensures n <= max
  {
    var slots := Slots(c, n, max);
    var u := set k | 0 <= k < |slots| :: slots[k];
    SetOfDistinct(slots, u);
    SetBelow(u, max);
  }

  /** The counter is about to wrap, and there are three slots: the next two calls get the same. */
  lemma WrapExample(c: nat, max: nat)
    requires c == 0xFFFF_FFFE && max == 3
    ensures Index(c, 1, max) == Index(c, 2, max)
  {
  }
}
