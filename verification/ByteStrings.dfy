/** Byte strings, their lexicographic order and their value as big-endian numbers. */
module ByteStrings {

  type Byte = b: int | 0 <= b < 256
  type Bytes = seq<Byte>

  /** `[u8; 16]`: sector, identity, machine, message and group ids. */
  type Id16 = b: Bytes | |b| == 16 witness [0, 0, 0, 0, 0, 0, 0, 0, 0, 0, 0, 0, 0, 0, 0, 0]

  const U32_LIMIT: nat := 0x1_0000_0000
  const U64_LIMIT: nat := 0x1_0000_0000_0000_0000

  type U8 = n: nat | n < 256
  type U32 = n: nat | n < U32_LIMIT
  type U64 = n: nat | n < U64_LIMIT

  /** The order of `[u8]` in Rust, and of keys in the store. */
  predicate LexLess(a: Bytes, b: Bytes) {
    |b| > 0 && (|a| == 0 || a[0] < b[0] || (a[0] == b[0] && LexLess(a[1..], b[1..])))
  }

  predicate LexLeq(a: Bytes, b: Bytes) {
    a == b || LexLess(a, b)
  }

  lemma {:induction false} LexTotal(a: Bytes, b: Bytes)
    ensures a == b ==> !LexLess(a, b)
    ensures a != b ==> (LexLess(a, b) <==> !LexLess(b, a))
  {
    if |a| == 0 || |b| == 0 {
    } else {
      LexTotal(a[1..], b[1..]);
      if a[0] == b[0] && a[1..] == b[1..] {
        assert a == [a[0]] + a[1..] == b;
      }
    }
  }

  lemma {:induction false} LexTransitive(a: Bytes, b: Bytes, c: Bytes)
    requires LexLeq(a, b) && LexLeq(b, c)
    ensures LexLeq(a, c)
    ensures a != b || b != c ==> LexLess(a, c)
  {
    if a == b || b == c || a == [] || a[0] != b[0] || b[0] != c[0] {
    } else {
      LexTransitive(a[1..], b[1..], c[1..]);
      LexTotal(b[1..], c[1..]);
    }
  }

  /** Equal-length heads decide first, then the tails. */
  lemma {:induction false} LexSplit(a: Bytes, x: Bytes, b: Bytes, y: Bytes)
    requires |a| == |b|
    ensures LexLess(a + x, b + y) <==> LexLess(a, b) || (a == b && LexLess(x, y))
  {
    if |a| == 0 {
      assert a + x == x && b + y == y;
    } else {
      assert (a + x)[1..] == a[1..] + x && (b + y)[1..] == b[1..] + y;
      LexSplit(a[1..], x, b[1..], y);
      assert a == [a[0]] + a[1..] && b == [b[0]] + b[1..];
    }
  }

  lemma PrefixSplit(a: Bytes, x: Bytes, b: Bytes, y: Bytes)
    requires |a| == |b|
    ensures a + x <= b + y <==> a == b && x <= y
  {
    if a == b && x <= y {
      assert b + y == (a + x) + y[|x|..];
    }
    if a + x <= b + y {
      assert a == (a + x)[..|a|] == (b + y)[..|a|] == b;
      assert x == (a + x)[|a|..] == (b + y)[..|a + x|][|a|..] == y[..|x|];
    }
  }

  /** Keys sharing a prefix are contiguous in the order. */
  lemma PrefixConvex(p: Bytes, a: Bytes, b: Bytes)
    requires LexLeq(p, a) && LexLeq(a, b) && p <= b
    ensures p <= a
  {
    LexTotal(p, a);
    LexTotal(a, b);
    var rest := b[|p|..];
    assert b == p + rest;
    if |a| < |p| {
      var h, t := p[..|a|], p[|a|..];
      assert p == h + t && b == h + (t + rest) && a == a + [];
      LexSplit(h, t, a, []);
      LexSplit(a, [], h, t + rest);
      LexTotal(h, a);
      assert false;
    } else {
      var h, t := a[..|p|], a[|p|..];
      assert a == h + t && p == p + [];
      LexSplit(p, [], h, t);
      LexSplit(h, t, p, rest);
      LexTotal(p, h);
    }
  }

  lemma PrefixIsLeast(p: Bytes, k: Bytes)
    requires p <= k
    ensures LexLeq(p, k)
  {
    assert k == p + k[|p|..] && p == p + [];
    LexSplit(p, [], p, k[|p|..]);
  }

  /** The value of a big-endian byte string. */
  function BeNat(b: Bytes): nat {
    if |b| == 0 then 0 else 256 * BeNat(b[..|b| - 1]) + b[|b| - 1]
  }

  /** `n` as `width` big-endian bytes, higher bytes dropped: `to_be_bytes`, and `as u16` before it. */
  function ToBe(n: nat, width: nat): (b: Bytes)
    ensures |b| == width
  {
    if width == 0 then [] else ToBe(n / 256, width - 1) + [n % 256]
  }

  function Pow256(width: nat): (p: nat)
    ensures p > 0
  {
    if width == 0 then 1 else 256 * Pow256(width - 1)
  }

  lemma {:induction false} BeNatToBe(n: nat, width: nat)
    ensures BeNat(ToBe(n, width)) == n % Pow256(width)
  {
    if width == 0 {
    } else {
      BeNatToBe(n / 256, width - 1);
      var p := Pow256(width - 1);
      assert ToBe(n, width)[..width - 1] == ToBe(n / 256, width - 1);
      ModSplit(n, p);
    }
  }

  lemma ModSplit(n: nat, p: nat)
    requires p > 0
    ensures n % (256 * p) == 256 * (n / 256 % p) + n % 256
  {
    var q := n / 256;
    var d, m := q / p, q % p;
    var r := 256 * m + n % 256;
    assert q == p * d + m;
    assert n == (256 * p) * d + r by {
      assert n == 256 * (p * d + m) + n % 256;
      assert 256 * (p * d) == (256 * p) * d;
    }
    assert 0 <= r < 256 * p;
    ModUnique(n, 256 * p, d, r);
  }

  lemma ModUnique(n: nat, p: nat, d: nat, r: nat)
    requires p > 0 && n == p * d + r && r < p
    ensures n % p == r && n / p == d
  {
    var e, m := n / p, n % p;
    assert n == p * e + m && 0 <= m < p;
    var k := d - e;
    assert p * k == m - r by {
      assert p * (d - e) == p * d - p * e;
    }
    MulAway(p, k);
  }

  lemma MulAway(p: nat, k: int)
    ensures k >= 1 ==> p * k >= p
    ensures k <= -1 ==> p * k + p <= 0
  {
    if k >= 1 {
      assert p * (k - 1) >= 0;
    } else if k <= -1 {
      assert p * (-k - 1) >= 0;
    }
  }

  lemma {:induction false} BeNatBound(b: Bytes)
    ensures BeNat(b) < Pow256(|b|)
  {
    if |b| == 0 {
    } else {
      BeNatBound(b[..|b| - 1]);
    }
  }

  lemma {:induction false} ToBeBeNat(b: Bytes)
    ensures ToBe(BeNat(b), |b|) == b
  {
    if |b| == 0 {
    } else {
      ToBeBeNat(b[..|b| - 1]);
      assert BeNat(b) / 256 == BeNat(b[..|b| - 1]);
      assert b == b[..|b| - 1] + [b[|b| - 1]];
    }
  }

  lemma BeNatInjective(a: Bytes, b: Bytes)
    requires |a| == |b|
    ensures BeNat(a) == BeNat(b) <==> a == b
  {
    ToBeBeNat(a);
    ToBeBeNat(b);
  }

  /** On equal lengths the byte order is the numeric order. */
  lemma {:induction false} LexIsNumeric(a: Bytes, b: Bytes)
    requires |a| == |b|
    ensures LexLess(a, b) <==> BeNat(a) < BeNat(b)
  {
    if |a| == 0 {
    } else {
      var n := |a| - 1;
      var a', b', x, y := a[..n], b[..n], a[n], b[n];
      assert a == a' + [x] && b == b' + [y];
      LexSplit(a', [x], b', [y]);
      LexIsNumeric(a', b');
      BeNatInjective(a', b');
    }
  }

  lemma Widths()
    ensures Pow256(1) == 256
    ensures Pow256(2) == 0x1_0000
    ensures Pow256(4) == U32_LIMIT
    ensures Pow256(8) == U64_LIMIT
  {
    assert Pow256(0) == 1;
    assert Pow256(1) == 256;
    assert Pow256(2) == 0x1_0000;
    assert Pow256(3) == 0x100_0000;
    assert Pow256(4) == U32_LIMIT;
    assert Pow256(5) == 0x100_0000_0000;
    assert Pow256(6) == 0x1_0000_0000_0000;
    assert Pow256(7) == 0x100_0000_0000_0000;
  }

  /** The big-endian form of a number that fits is exact. */
  lemma BeRoundTrip(n: nat, width: nat)
    requires n < Pow256(width)
    ensures BeNat(ToBe(n, width)) == n
  {
    BeNatToBe(n, width);
    ModUnique(n, Pow256(width), 0, n);
  }
}
