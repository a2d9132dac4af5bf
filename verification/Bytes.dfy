/** Bytes, powers of two and the little-endian view of machine words. */
module Bytes {

  const TWO32: nat := 0x1_0000_0000
  const TWO64: nat := 0x1_0000_0000_0000_0000

  type byte = b: int | 0 <= b < 256

  type u64 = v: int | 0 <= v < 0x1_0000_0000_0000_0000

  datatype Option<+T> = None | Some(value: T)

  function Wrap64(v: int): (r: u64) {
    v % TWO64
  }

  function Pow2(n: nat): (p: nat)
    ensures p >= 1
  {
    if n == 0 then 1 else 2 * Pow2(n - 1)
  }

  function Pow256(n: nat): (p: nat)
    ensures p >= 1
    decreases n
  {
    if n == 0 then 1 else 256 * Pow256(n - 1)
  }

  /** The `n` low bytes of `v`, least significant first. */
  function Le(v: nat, n: nat): (s: seq<byte>)
    ensures |s| == n
    decreases n
  {
    if n == 0 then [] else [v % 256] + Le(v / 256, n - 1)
  }

  /** The value of a little-endian byte string. */
  function FromLe(s: seq<byte>): (v: nat)
    decreases |s|
  {
    if s == [] then 0 else s[0] + 256 * FromLe(s[1..])
  }

  function Splice<T>(s: seq<T>, at: nat, data: seq<T>): (r: seq<T>)
    requires at + |data| <= |s|
    ensures |r| == |s|
  {
    s[..at] + data + s[at + |data|..]
  }

  function Concat(parts: seq<seq<byte>>): seq<byte> {
    if parts == [] then [] else parts[0] + Concat(parts[1..])
  }

  lemma {:induction false} ConcatSnoc(parts: seq<seq<byte>>, last: seq<byte>)
    ensures Concat(parts + [last]) == Concat(parts) + last
  {
    if parts == [] {
      assert Concat([last]) == last + Concat([]);
    } else {
      assert (parts + [last])[1..] == parts[1..] + [last];
      ConcatSnoc(parts[1..], last);
    }
  }

  lemma {:induction false} ConcatAppend(a: seq<seq<byte>>, b: seq<seq<byte>>)
    ensures Concat(a + b) == Concat(a) + Concat(b)
  {
    if a == [] {
      assert a + b == b;
    } else {
      assert (a + b)[1..] == a[1..] + b;
      ConcatAppend(a[1..], b);
      Associate(a[0], Concat(a[1..]), Concat(b));
    }
  }

  lemma Associate<T>(a: seq<T>, b: seq<T>, c: seq<T>)
    ensures (a + b) + c == a + (b + c)
  {
  }

  lemma SplitsBack<T>(a: seq<T>, b: seq<T>)
    ensures (a + b)[..|a|] == a && (a + b)[|a|..] == b
  {
  }

  lemma {:induction false} SplicesCommute<T>(s: seq<T>, at: nat, x: seq<T>, to: nat, y: seq<T>)
    requires at + |x| <= to && to + |y| <= |s|
    ensures Splice(Splice(s, at, x), to, y) == Splice(Splice(s, to, y), at, x)
  {
    var a, b := Splice(Splice(s, at, x), to, y), Splice(Splice(s, to, y), at, x);
    forall k | 0 <= k < |s|
      ensures a[k] == b[k]
    {
      SpliceAt(s, at, x, k);
      SpliceAt(Splice(s, at, x), to, y, k);
      SpliceAt(s, to, y, k);
      SpliceAt(Splice(s, to, y), at, x, k);
    }
  }

  lemma SpliceAt<T>(s: seq<T>, at: nat, x: seq<T>, k: nat)
    requires at + |x| <= |s| && k < |s|
    ensures Splice(s, at, x)[k] == if at <= k < at + |x| then x[k - at] else s[k]
  {
  }

  lemma SliceOfSlice<T>(s: seq<T>, from: nat, to: nat, i: nat, n: nat)
    requires from + i + n <= to <= |s|
    ensures s[from..to][i..i + n] == s[from + i..from + i + n]
  {
    var a, b := s[from..to][i..i + n], s[from + i..from + i + n];
    assert forall k :: 0 <= k < n ==> a[k] == b[k];
  }

  /** A window of a splice that covers the new data is the splice of the window. */
  lemma {:induction false} WindowOfSplice<T>(s: seq<T>, from: nat, to: nat, at: nat, x: seq<T>)
    requires from <= at && at + |x| <= to <= |s|
    ensures Splice(s, at, x)[from..to] == Splice(s[from..to], at - from, x)
  {
  }

  lemma {:induction false} WindowAvoidsSplice<T>(s: seq<T>, from: nat, to: nat, at: nat, x: seq<T>)
    requires from <= to <= |s| && at + |x| <= |s|
    requires at + |x| <= from || to <= at
    ensures Splice(s, at, x)[from..to] == s[from..to]
  {
  }

  lemma {:induction false} LeOfFromLe(s: seq<byte>)
    ensures Le(FromLe(s), |s|) == s
  {
    if s != [] {
      LeOfFromLe(s[1..]);
      var t := FromLe(s[1..]);
      DivModUnique(s[0] + 256 * t, 256, t, s[0]);
      assert s == [s[0]] + s[1..];
    }
  }

  lemma {:induction false} FromLeBound(s: seq<byte>)
    ensures FromLe(s) < Pow256(|s|)
  {
    if s != [] {
      FromLeBound(s[1..]);
    }
  }

  lemma {:induction false} ModStep(v: nat, p: nat)
    requires p >= 1
    ensures v % (256 * p) == v % 256 + 256 * ((v / 256) % p)
  {
    var q, r := (v / 256) / p, (v / 256) % p;
    assert v / 256 == p * q + r;
    assert v == (256 * p) * q + (256 * r + v % 256) by {
      assert 256 * (p * q) == (256 * p) * q;
    }
    DivModUnique(v, 256 * p, q, 256 * r + v % 256);
  }

  lemma {:induction false} DivModUnique(v: nat, d: nat, q: nat, r: nat)
    requires d >= 1 && r < d && v == d * q + r
    ensures v / d == q && v % d == r
  {
    var q', r' := v / d, v % d;
    assert d * q' + r' == v;
    var gap: int := q' - q;
    assert d * gap == r - r' by {
      assert d * q' - d * q == d * gap;
    }
    if gap >= 1 {
      MulAtLeast(d, gap);
    }
  }

  lemma Distribute(d: int, a: int, b: int)
    ensures d * (a + b) == d * a + d * b && d * (a - b) == d * a - d * b
  {
  }

  lemma NegativeProduct(d: int, q: int)
    requires d >= 1
    ensures q < 0 ==> d * q <= 0 - d
  {
  }

  lemma ModUnique(v: int, d: nat, q: int, r: nat)
    requires d >= 1 && r < d && v == d * q + r
    ensures v % d == r
  {
    var e := v / d - q;
    Distribute(d, q, e);
    Distribute(d, 0, e);
    NegativeProduct(d, e);
    NegativeProduct(d, -e);
  }

  lemma MulAtLeast(d: nat, k: nat)
    requires k >= 1
    ensures d * k >= d
  {
  }

  lemma MulMonotone(s: nat, x: nat, y: nat)
    requires x <= y
    ensures s * x <= s * y
  {
  }

  lemma {:induction false} FromLeOfLe(v: nat, n: nat)
    ensures FromLe(Le(v, n)) == v % Pow256(n)
  {
    if n > 0 {
      FromLeOfLe(v / 256, n - 1);
      ModStep(v, Pow256(n - 1));
      assert Le(v, n)[1..] == Le(v / 256, n - 1);
    }
  }

  lemma MulAssoc(a: int, b: int, c: int)
    ensures a * (b * c) == (a * b) * c
  {
  }

  lemma {:induction false} FromLeAppend(a: seq<byte>, b: seq<byte>)
    ensures FromLe(a + b) == FromLe(a) + Pow256(|a|) * FromLe(b)
  {
    if a == [] {
      assert a + b == b;
    } else {
      var c := a + b;
      assert c[1..] == a[1..] + b && c[0] == a[0];
      FromLeAppend(a[1..], b);
      var p, f := Pow256(|a| - 1), FromLe(b);
      assert FromLe(c) == a[0] + 256 * FromLe(c[1..]);
      MulAssoc(256, p, f);
    }
  }

  lemma {:induction false} Pow256Add(m: nat, n: nat)
    ensures Pow256(m + n) == Pow256(m) * Pow256(n)
  {
    if m > 0 {
      Pow256Add(m - 1, n);
    }
  }

  /** A string of bytes split in three: the middle is a base-256 field of the whole. */
  lemma {:induction false} MiddleField(s: seq<byte>, at: nat, n: nat)
    requires at + n <= |s|
    ensures FromLe(s[at..at + n]) == FromLe(s) / Pow256(at) % Pow256(n)
  {
    var lo, mid, hi := s[..at], s[at..at + n], s[at + n..];
    assert s == lo + (mid + hi);
    FromLeAppend(lo, mid + hi);
    FromLeAppend(mid, hi);
    FromLeBound(lo);
    FromLeBound(mid);
    DivModUnique(FromLe(s), Pow256(at), FromLe(mid + hi), FromLe(lo));
    DivModUnique(FromLe(mid + hi), Pow256(n), FromLe(hi), FromLe(mid));
  }

  /** Overwriting the middle changes the whole by the difference, shifted into place. */
  lemma {:induction false} SpliceValue(s: seq<byte>, at: nat, data: seq<byte>)
    requires at + |data| <= |s|
    ensures FromLe(Splice(s, at, data)) ==
            FromLe(s) + Pow256(at) * (FromLe(data) - FromLe(s[at..at + |data|]))
  {
    var n := |data|;
    var lo, mid, hi := s[..at], s[at..at + n], s[at + n..];
    assert s == lo + (mid + hi);
    assert Splice(s, at, data) == lo + (data + hi);
    FromLeAppend(lo, mid + hi);
    FromLeAppend(mid, hi);
    FromLeAppend(lo, data + hi);
    FromLeAppend(data, hi);
    var p: int, d: int, m: int, h: int := Pow256(at), FromLe(data), FromLe(mid), Pow256(n) * FromLe(hi);
    assert p * (d + h) - p * (m + h) == p * (d - m);
  }

  lemma {:induction false} Pow256Values()
    ensures Pow256(1) == 0x100 && Pow256(2) == 0x1_0000 && Pow256(4) == TWO32 && Pow256(8) == TWO64
  {
    assert Pow256(1) == 256 * Pow256(0);
    assert Pow256(2) == 256 * Pow256(1);
    assert Pow256(3) == 256 * Pow256(2);
    assert Pow256(4) == 256 * Pow256(3);
    Pow256Add(4, 4);
  }

  /** The `n`-byte little-endian number stored at `at`. */
  function Field(s: seq<byte>, at: nat, n: nat): nat
    requires at + n <= |s|
  {
    FromLe(s[at..at + n])
  }

  function WithField(s: seq<byte>, at: nat, n: nat, v: nat): (r: seq<byte>)
    requires at + n <= |s|
    ensures |r| == |s|
  {
    Splice(s, at, Le(v, n))
  }

  lemma {:induction false} FieldOfItself(s: seq<byte>, at: nat, n: nat, v: nat)
    requires at + n <= |s|
    ensures Field(WithField(s, at, n, v), at, n) == v % Pow256(n)
    ensures WithField(s, at, n, Field(s, at, n)) == s
  {
    FromLeOfLe(v, n);
    LeOfFromLe(s[at..at + n]);
    assert WithField(s, at, n, v)[at..at + n] == Le(v, n);
  }

  lemma {:induction false} FieldOfDisjoint(s: seq<byte>, at: nat, n: nat, v: nat, from: nat, m: nat)
    requires at + n <= |s| && from + m <= |s|
    requires at + n <= from || from + m <= at
    ensures Field(WithField(s, at, n, v), from, m) == Field(s, from, m)
  {
    WindowAvoidsSplice(s, from, from + m, at, Le(v, n));
  }

  /** A field that covers the overwritten one changes by the difference, shifted into place. */
  lemma {:induction false} FieldOfEnclosing(s: seq<byte>, at: nat, n: nat, v: nat, from: nat, m: nat)
    requires from <= at && at + n <= from + m <= |s|
    ensures Field(WithField(s, at, n, v), from, m) ==
            Field(s, from, m) + Pow256(at - from) * (v % Pow256(n) - Field(s, at, n))
  {
    hide Le, FromLe, Pow256, Splice;
    WindowOfSplice(s, from, from + m, at, Le(v, n));
    SpliceValue(s[from..from + m], at - from, Le(v, n));
    SliceOfSlice(s, from, from + m, at - from, n);
    FromLeOfLe(v, n);
  }

  /** A field inside the overwritten one reads its own bytes of the new value. */
  lemma {:induction false} FieldOfInside(s: seq<byte>, at: nat, n: nat, v: nat, from: nat, m: nat)
    requires at <= from && from + m <= at + n <= |s|
    ensures Field(WithField(s, at, n, v), from, m) == v % Pow256(n) / Pow256(from - at) % Pow256(m)
  {
    var whole := WithField(s, at, n, v);
    SliceOfSlice(whole, at, at + n, from - at, m);
    assert whole[at..at + n] == Le(v, n);
    MiddleField(Le(v, n), from - at, m);
    FromLeOfLe(v, n);
  }

  lemma WrapTwice(a: int, b: int)
    ensures Wrap64(Wrap64(a) + b) == Wrap64(a + b)
  {
    var q := a / TWO64;
    var r, s := (Wrap64(a) + b) / TWO64, Wrap64(Wrap64(a) + b);
    ModUnique(a + b, TWO64, q + r, s);
  }

  /** Wrapping at 64 bits does not change the low bytes. */
  lemma {:induction false} LowBytesOfWrapped(v: int, n: nat)
    requires n in {1, 2, 4, 8}
    ensures Wrap64(v) % Pow256(n) == v % Pow256(n)
  {
    hide Pow256;
    Pow256Values();
    var p: nat, k: nat := Pow256(n), TWO64 / Pow256(n);
    var q, r := v / TWO64, Wrap64(v) / p;
    assert p * k == TWO64;
    MulAssoc(p, k, q);
    Distribute(p, k * q, r);
    ModUnique(v, p, k * q + r, Wrap64(v) % p);
  }
}
