/** Octet strings and the fixed-width big-endian integers that all codecs share. */
module Bytes {
  type byte = x: nat | x < 256
  type bytes = seq<byte>

  function Pow256(width: nat): (p: nat)
    ensures p >= 1
  {
    if width == 0 then 1 else 256 * Pow256(width - 1)
  }

  /** The low `width` octets of n, most significant first, as binary.BigEndian.PutUintN
      writes them after a truncating conversion. */
  function PutUint(n: nat, width: nat): (r: bytes)
    ensures |r| == width
  {
    if width == 0 then [] else PutUint(n / 256, width - 1) + [n % 256]
  }

  function GetUint(b: bytes): nat
  {
    if b == [] then 0 else GetUint(b[..|b| - 1]) * 256 + b[|b| - 1]
  }

  /** Two's complement. */
  function Wrapped(v: int, modulus: int): nat
    requires 0 < modulus
  {
    v % modulus
  }

  /** A signed integer from its two's complement. */
  function FromUnsigned(n: nat, modulus: int): int { if 2 * n >= modulus then n - modulus else n }

  lemma SignedBack(v: int, modulus: int)
    requires 0 < modulus && -modulus <= 2 * v < modulus
    ensures FromUnsigned(Wrapped(v, modulus), modulus) == v
  {
    WrappedIs(v, modulus);
  }

  lemma WrappedIs(v: int, modulus: int)
    requires 0 < modulus && -modulus <= v < modulus
    ensures Wrapped(v, modulus) == if v < 0 then v + modulus else v
  {
  }

  lemma Pow256Values()
    ensures Pow256(1) == 0x100
    ensures Pow256(2) == 0x1_0000
    ensures Pow256(3) == 0x100_0000
    ensures Pow256(4) == 0x1_0000_0000
    ensures Pow256(6) == 0x1_0000_0000_0000
    ensures Pow256(8) == 0x1_0000_0000_0000_0000
  {
    assert Pow256(5) == 256 * Pow256(4);
    assert Pow256(6) == 256 * Pow256(5);
    assert Pow256(7) == 256 * Pow256(6);
  }

  /** Reading back what was written gives the value, if it fits in the octets. */
  lemma {:induction false} GetPut(n: nat, width: nat)
    requires n < Pow256(width)
    ensures GetUint(PutUint(n, width)) == n
  {
    if width > 0 {
      GetPut(n / 256, width - 1);
      var r := PutUint(n, width);
      assert r[..|r| - 1] == PutUint(n / 256, width - 1);
    }
  }

  /** GetPut for the widths in use. */
  lemma FixedWidth(n: nat)
    ensures n < 0x100 ==> GetUint(PutUint(n, 1)) == n
    ensures n < 0x1_0000 ==> GetUint(PutUint(n, 2)) == n
    ensures n < 0x100_0000 ==> GetUint(PutUint(n, 3)) == n
    ensures n < 0x1_0000_0000 ==> GetUint(PutUint(n, 4)) == n
    ensures n < 0x1_0000_0000_0000 ==> GetUint(PutUint(n, 6)) == n
    ensures n < 0x1_0000_0000_0000_0000 ==> GetUint(PutUint(n, 8)) == n
  {
    Pow256Values();
    hide *;
    if n < Pow256(1) { GetPut(n, 1); }
    if n < Pow256(2) { GetPut(n, 2); }
    if n < Pow256(3) { GetPut(n, 3); }
    if n < Pow256(4) { GetPut(n, 4); }
    if n < Pow256(6) { GetPut(n, 6); }
    if n < Pow256(8) { GetPut(n, 8); }
  }

  lemma HalfWord(n: nat)
    requires n < 0x1_0000
    ensures GetUint(PutUint(n, 2)) == n
  {
    FixedWidth(n);
    hide *;
  }

  lemma Word(n: nat)
    requires n < 0x1_0000_0000
    ensures GetUint(PutUint(n, 4)) == n
  {
    FixedWidth(n);
    hide *;
  }

  lemma {:induction false} GetBound(b: bytes)
    ensures GetUint(b) < Pow256(|b|)
  {
    if b != [] {
      GetBound(b[..|b| - 1]);
    }
  }

  lemma {:induction false} PutGet(b: bytes)
    ensures PutUint(GetUint(b), |b|) == b
  {
    if b != [] {
      PutGet(b[..|b| - 1]);
      assert b == b[..|b| - 1] + [b[|b| - 1]];
    }
  }

  /** A leading octet contributes its value times the weight of its place. */
  lemma {:induction false} GetUintHead(b: bytes)
    requires b != []
    ensures GetUint(b) == b[0] * Pow256(|b| - 1) + GetUint(b[1..])
  {
    var init := b[..|b| - 1];
    GetUintLast(b);
    if |b| > 1 {
      GetUintHead(init);
      GetUintLast(b[1..]);
      assert init[1..] == b[1..][..|b| - 2];
      HeadWeight(b[0], |b| - 1);
    }
    hide Pow256, GetUint;
  }

  lemma GetUintLast(b: bytes)
    requires b != []
    ensures GetUint(b) == GetUint(b[..|b| - 1]) * 256 + b[|b| - 1]
    ensures |b| == 1 ==> GetUint(b) == b[0] && Pow256(0) == 1 && GetUint(b[1..]) == 0
  {
  }

  lemma HeadWeight(h: nat, width: nat)
    requires width > 0
    ensures h * Pow256(width - 1) * 256 == h * Pow256(width)
  {
    Regroup(h, Pow256(width - 1));
  }

  lemma Regroup(h: nat, p: nat)
    ensures h * p * 256 == h * (256 * p)
  {
  }

  lemma PutUintHead(n: nat, width: nat)
    requires width > 0 && n < Pow256(width)
    ensures PutUint(n, width)[0] == n / Pow256(width - 1)
    ensures PutUint(n, width)[1..] == PutUint(n % Pow256(width - 1), width - 1)
  {
    var r := PutUint(n, width);
    GetPut(n, width);
    GetUintHead(r);
    GetBound(r[1..]);
    var p := Pow256(width - 1);
    DivModUnique(n, p, r[0], GetUint(r[1..]));
    PutGet(r[1..]);
  }

  lemma DivModUnique(n: nat, p: nat, q: nat, r: nat)
    requires p > 0 && r < p && n == q * p + r
    ensures n / p == q && n % p == r
  {
    var d := n / p - q;
    assert n == (n / p) * p + n % p;
    assert d * p == r - n % p;
    MulBound(d, p);
  }

  lemma MulBound(d: int, p: nat)
    ensures d >= 1 ==> d * p >= p
    ensures d <= -1 ==> d * p + p <= 0
  {
  }

  lemma ModSucc(n: nat, m: nat)
    requires m > 0
    ensures (n + 1) % m == if n % m == m - 1 then 0 else n % m + 1
  {
    var q, r := n / m, n % m;
    if r == m - 1 {
      DivModUnique(n + 1, m, q + 1, 0);
    } else {
      DivModUnique(n + 1, m, q, r + 1);
    }
  }

  lemma MultipleMod(q: int, p: nat)
    requires p > 0
    ensures q * p % p == 0
  {
    var d := q * p / p - q;
    assert d * p == -(q * p % p);
    MulBound(d, p);
  }

  lemma Grouped<T>(a: seq<T>, b: seq<T>, c: seq<T>)
    ensures a + b + c == a + (b + c)
  {
  }

  lemma DropFirst(a: bytes, b: bytes)
    ensures |a + b| == |a| + |b| && (a + b)[|a|..] == b
  {
  }

  /** Cutting a concatenation at its seams. */
  lemma Seams(a: bytes, b: bytes, c: bytes)
    ensures (a + b + c)[..|a|] == a
    ensures (a + b + c)[|a|..] == b + c
    ensures (a + b + c)[|a|..|a| + |b|] == b
    ensures (a + b + c)[|a| + |b|..] == c
  {
  }
}
