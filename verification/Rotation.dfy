/** Rotations, plain and through the carry, as rotations of bit strings. */
module Rotation {
  import opened Bytes

  // ---- bit strings, lowest bit first ----

  function BitsOf(v: nat, n: nat): (s: seq<bool>)
    ensures |s| == n
    decreases n
  {
    if n == 0 then [] else [v % 2 == 1] + BitsOf(v / 2, n - 1)
  }

  function Digit(b: bool): nat {
    if b then 1 else 0
  }

  function FromBits(s: seq<bool>): nat
    decreases |s|
  {
    if s == [] then 0 else Digit(s[0]) + 2 * FromBits(s[1..])
  }

  /** Every bit moved up by `k` places, those that leave at the top entering at the bottom. */
  function RotateUp(s: seq<bool>, k: nat): (r: seq<bool>)
    requires k <= |s|
    ensures |r| == |s|
  {
    s[|s| - k..] + s[..|s| - k]
  }

  lemma RotateUpBit(s: seq<bool>, k: nat, i: nat)
    requires k <= |s| && i < |s|
    ensures RotateUp(s, k)[(i + k) % |s|] == s[i]
  {
    if i + k < |s| {
      DivModUnique(i + k, |s|, 0, i + k);
    } else {
      DivModUnique(i + k, |s|, 1, i + k - |s|);
    }
  }

  lemma {:induction false} RotateUpTwice(s: seq<bool>, j: nat, k: nat)
    requires j <= |s| && k <= |s|
    ensures RotateUp(RotateUp(s, j), k) == RotateUp(s, if j + k <= |s| then j + k else j + k - |s|)
  {
    var t := RotateUp(s, j);
    if j + k <= |s| {
      assert t[|s| - k..] == s[|s| - j - k..|s| - j];
      assert t[..|s| - k] == s[|s| - j..] + s[..|s| - j - k];
      assert s[|s| - j - k..|s| - j] + s[|s| - j..] == s[|s| - j - k..];
    } else {
      var m := j + k - |s|;
      assert t[|s| - k..] == s[|s| - m..] + s[..|s| - j];
      assert t[..|s| - k] == s[|s| - j..|s| - m];
      assert s[..|s| - j] + s[|s| - j..|s| - m] == s[..|s| - m];
    }
  }

  // Quotient and remainder under names of their own: the proofs below use them through
  // LowHigh and Recompose only.

  function Low(v: nat, p: nat): (r: nat)
    requires p >= 1
    ensures r < p
  {
    v % p
  }

  function High(v: nat, p: nat): nat
    requires p >= 1
  {
    v / p
  }

  lemma LowHigh(v: nat, p: nat)
    requires p >= 1
    ensures v == p * High(v, p) + Low(v, p)
  {
  }

  lemma Recompose(v: nat, p: nat, q: nat, r: nat)
    requires p >= 1 && r < p && v == p * q + r
    ensures High(v, p) == q && Low(v, p) == r
  {
    DivModUnique(v, p, q, r);
  }

  lemma {:induction false} FromBitsOf(v: nat, n: nat)
    ensures FromBits(BitsOf(v, n)) == Low(v, Pow2(n))
  {
    hide Low, High;
    if n == 0 {
      Recompose(v, 1, v, 0);
    } else {
      var h, p := v / 2, Pow2(n - 1);
      FromBitsOf(h, n - 1);
      assert BitsOf(v, n)[1..] == BitsOf(h, n - 1);
      LowHigh(h, p);
      MulAssoc(2, p, High(h, p));
      Recompose(v, 2 * p, High(h, p), v % 2 + 2 * Low(h, p));
    }
  }

  lemma {:induction false} SameBitsSameValue(v: nat, u: nat, n: nat)
    requires v < Pow2(n) && u < Pow2(n) && BitsOf(v, n) == BitsOf(u, n)
    ensures v == u
  {
    hide Low, High, BitsOf;
    FromBitsOf(v, n);
    FromBitsOf(u, n);
    Recompose(v, Pow2(n), 0, v);
    Recompose(u, Pow2(n), 0, u);
  }

  lemma {:induction false} BitsJoin(lo: nat, hi: nat, a: nat, b: nat)
    requires lo < Pow2(a)
    ensures BitsOf(lo + Pow2(a) * hi, a + b) == BitsOf(lo, a) + BitsOf(hi, b)
    decreases a
  {
    if a == 0 {
      assert Pow2(0) == 1;
    } else {
      var p: nat, v := Pow2(a - 1), lo + Pow2(a) * hi;
      assert Pow2(a) * hi == 2 * (p * hi) by { MulAssoc(2, p, hi); }
      assert v % 2 == lo % 2 && v / 2 == lo / 2 + p * hi;
      BitsJoin(lo / 2, hi, a - 1, b);
    }
  }

  lemma {:induction false} Pow2Add(m: nat, n: nat)
    ensures Pow2(m + n) == Pow2(m) * Pow2(n)
  {
    if m > 0 {
      Pow2Add(m - 1, n);
      MulAssoc(2, Pow2(m - 1), Pow2(n));
    }
  }

  lemma {:induction false} BitsSplit(v: nat, a: nat, b: nat)
    ensures BitsOf(v, a + b) == BitsOf(Low(v, Pow2(a)), a) + BitsOf(High(v, Pow2(a)), b)
  {
    hide Low, High, Pow2;
    LowHigh(v, Pow2(a));
    BitsJoin(Low(v, Pow2(a)), High(v, Pow2(a)), a, b);
  }

  // ---- plain rotation ----

  predicate IsWidth(bits: nat) {
    bits == 8 || bits == 16 || bits == 32 || bits == 64
  }

  function Turn(n: nat, bits: nat): (k: nat)
    requires IsWidth(bits)
    ensures k < bits
  {
    n % bits
  }

  lemma ProductIsNat(a: nat, b: nat)
    ensures 0 <= a * b
  {
  }

  /** The two shifted halves share no bit, so joining them is adding them. */
  function RotateLeft(value: nat, n: nat, bits: nat): nat
    requires IsWidth(bits)
  {
    hide Pow2, Low, High;
    var k := Turn(n, bits);
    ProductIsNat(value, Pow2(k));
    if k == 0 then value else Low(value * Pow2(k), Pow2(bits)) + High(value, Pow2(bits - k))
  }

  function RotateRight(value: nat, n: nat, bits: nat): nat
    requires IsWidth(bits)
  {
    hide Pow2, Low, High;
    var k := Turn(n, bits);
    ProductIsNat(value, Pow2(bits - k));
    if k == 0 then value else High(value, Pow2(k)) + Low(value * Pow2(bits - k), Pow2(bits))
  }

  lemma {:induction false} ShiftedHalves(value: nat, q: nat, p: nat)
    requires p >= 1 && q >= 1 && value < p * q
    ensures p * q >= 1 && High(value, q) < p && Low(value * p, p * q) == p * Low(value, q)
    ensures p * Low(value, q) + High(value, q) < p * q
  {
    hide Low, High;
    var lo, hi := Low(value, q), High(value, q);
    LowHigh(value, q);
    if hi >= p {
      MulMonotone(q, p, hi);
    }
    MulMonotone(p, lo + 1, q);
    assert p * (lo + 1) == p * lo + p;
    Regroup(value, p, q, hi, lo);
    Recompose(value * p, p * q, hi, p * lo);
  }

  lemma Regroup(value: nat, p: nat, q: nat, hi: nat, lo: nat)
    requires value == q * hi + lo
    ensures value * p == (p * q) * hi + p * lo
  {
    MulAssoc(p, q, hi);
    assert (q * hi + lo) * p == p * (q * hi) + p * lo;
  }

  lemma {:induction false} RotateLeftBits(value: nat, n: nat, bits: nat)
    requires IsWidth(bits) && value < Pow2(bits)
    ensures RotateLeft(value, n, bits) < Pow2(bits)
    ensures BitsOf(RotateLeft(value, n, bits), bits) == RotateUp(BitsOf(value, bits), Turn(n, bits))
  {
    hide Low, High, Pow2, Turn, BitsOf, RotateUp;
    FullTurn(BitsOf(value, bits));
    if Turn(n, bits) > 0 {
      HalvesSwapped(value, Turn(n, bits), bits);
    }
  }

  lemma {:induction false} HalvesSwapped(value: nat, k: nat, bits: nat)
    requires value < Pow2(bits) && 0 < k < bits
    ensures var r := Low(value * Pow2(k), Pow2(bits)) + High(value, Pow2(bits - k));
            r < Pow2(bits) && BitsOf(r, bits) == RotateUp(BitsOf(value, bits), k)
  {
    hide Low, High, Pow2, BitsOf;
    var q, p := Pow2(bits - k), Pow2(k);
    var lo, hi := Low(value, q), High(value, q);
    Pow2Add(k, bits - k);
    ShiftedHalves(value, q, p);
    BitsSplit(value, bits - k, k);
    BitsJoin(hi, lo, k, bits - k);
    SwapHalves(BitsOf(lo, bits - k), BitsOf(hi, k));
  }

  lemma SwapHalves(a: seq<bool>, b: seq<bool>)
    ensures RotateUp(a + b, |b|) == b + a
  {
    assert (a + b)[|a|..] == b && (a + b)[..|a|] == a;
  }

  lemma {:induction false} RotateRightBits(value: nat, n: nat, bits: nat)
    requires IsWidth(bits) && value < Pow2(bits)
    ensures RotateRight(value, n, bits) < Pow2(bits)
    ensures BitsOf(RotateRight(value, n, bits), bits) == RotateUp(BitsOf(value, bits), bits - Turn(n, bits))
  {
    hide Low, High, Pow2, Turn, BitsOf, RotateUp;
    FullTurn(BitsOf(value, bits));
    if Turn(n, bits) > 0 {
      HalvesSwapped(value, bits - Turn(n, bits), bits);
    }
  }

  /** Where a place ends up, counted round the width. */
  function Place(i: int, bits: nat): (k: nat)
    requires IsWidth(bits)
    ensures k < bits
  {
    i % bits
  }

  lemma PlaceUnique(v: int, bits: nat, q: int, r: nat)
    requires IsWidth(bits) && r < bits && v == bits * q + r
    ensures Place(v, bits) == r
  {
    ModUnique(v, bits, q, r);
  }

  lemma PlaceOfTurn(i: nat, n: nat, bits: nat)
    requires IsWidth(bits) && i < bits
    ensures var k := Turn(n, bits);
            Place(i + n, bits) == (i + k) % bits && Place(i - n, bits) == (i + (bits - k)) % bits
  {
    hide Place;
    var k, q := Turn(n, bits), n / bits;
    var up, down := (i + k) / bits, (i + (bits - k)) / bits;
    assert i + n == bits * (q + up) + (i + k) % bits by {
      assert bits * (q + up) == bits * q + bits * up;
    }
    assert i - n == bits * (down - q - 1) + (i + (bits - k)) % bits by {
      assert bits * (down - q - 1) == bits * down - bits * q - bits;
    }
    PlaceUnique(i + n, bits, q + up, (i + k) % bits);
    PlaceUnique(i - n, bits, down - q - 1, (i + (bits - k)) % bits);
  }

  /** Each bit of the value goes to the place its count says, counted round the width. */
  lemma {:induction false} RotationsMoveBits(value: nat, n: nat, bits: nat, i: nat)
    requires IsWidth(bits) && value < Pow2(bits) && i < bits
    ensures BitsOf(RotateLeft(value, n, bits), bits)[Place(i + n, bits)] == BitsOf(value, bits)[i]
    ensures BitsOf(RotateRight(value, n, bits), bits)[Place(i - n, bits)] == BitsOf(value, bits)[i]
  {
    hide RotateLeft, RotateRight, BitsOf, RotateUp, Pow2, Turn, Place;
    RotateLeftBits(value, n, bits);
    RotateRightBits(value, n, bits);
    PlaceOfTurn(i, n, bits);
    RotateUpBit(BitsOf(value, bits), Turn(n, bits), i);
    RotateUpBit(BitsOf(value, bits), bits - Turn(n, bits), i);
  }

  /** At every width, rotating back by the same count undoes a rotation. */
  lemma {:induction false} RotationsInverse(value: nat, n: nat, bits: nat)
    requires IsWidth(bits) && value < Pow2(bits)
    ensures RotateRight(RotateLeft(value, n, bits), n, bits) == value
    ensures RotateLeft(RotateRight(value, n, bits), n, bits) == value
  {
    hide RotateLeft, RotateRight, BitsOf, RotateUp, Pow2, Turn;
    var s, k := BitsOf(value, bits), Turn(n, bits);
    RotateLeftBits(value, n, bits);
    RotateRightBits(value, n, bits);
    RotateRightBits(RotateLeft(value, n, bits), n, bits);
    RotateLeftBits(RotateRight(value, n, bits), n, bits);
    RotateUpTwice(s, k, bits - k);
    RotateUpTwice(s, bits - k, k);
    FullTurn(s);
    SameBitsSameValue(RotateRight(RotateLeft(value, n, bits), n, bits), value, bits);
    SameBitsSameValue(RotateLeft(RotateRight(value, n, bits), n, bits), value, bits);
  }

  /** Counts add up, also when their 64-bit sum wraps. */
  lemma {:induction false} RotationsAdd(value: nat, m: u64, n: u64, bits: nat)
    requires IsWidth(bits) && value < Pow2(bits)
    ensures RotateLeft(RotateLeft(value, m, bits), n, bits) == RotateLeft(value, Wrap64(m + n), bits)
    ensures RotateRight(RotateRight(value, m, bits), n, bits) == RotateRight(value, Wrap64(m + n), bits)
  {
    hide RotateLeft, RotateRight, BitsOf, RotateUp, Pow2, Turn, Wrap64;
    var s, j, k := BitsOf(value, bits), Turn(m, bits), Turn(n, bits);
    CountsAdd(m, n, bits);
    RotateLeftBits(value, m, bits);
    RotateLeftBits(RotateLeft(value, m, bits), n, bits);
    RotateLeftBits(value, Wrap64(m + n), bits);
    RotateUpTwice(s, j, k);
    FullTurn(s);
    SameBitsSameValue(RotateLeft(RotateLeft(value, m, bits), n, bits), RotateLeft(value, Wrap64(m + n), bits), bits);
    RotateRightBits(value, m, bits);
    RotateRightBits(RotateRight(value, m, bits), n, bits);
    RotateRightBits(value, Wrap64(m + n), bits);
    RotateUpTwice(s, bits - j, bits - k);
    SameBitsSameValue(RotateRight(RotateRight(value, m, bits), n, bits), RotateRight(value, Wrap64(m + n), bits), bits);
  }

  lemma FullTurn(s: seq<bool>)
    ensures RotateUp(s, |s|) == s && RotateUp(s, 0) == s
  {
  }

  lemma CountsAdd(m: u64, n: u64, bits: nat)
    requires IsWidth(bits)
    ensures var (j, k) := (Turn(m, bits), Turn(n, bits));
            Turn(Wrap64(m + n), bits) == if j + k < bits then j + k else j + k - bits
  {
    if bits == 8 {
      SumOfTurns(m, n, 8, TWO64 / 8);
    } else if bits == 16 {
      SumOfTurns(m, n, 16, TWO64 / 16);
    } else if bits == 32 {
      SumOfTurns(m, n, 32, TWO64 / 32);
    } else {
      SumOfTurns(m, n, 64, TWO64 / 64);
    }
  }

  lemma TurnOf(n: nat, bits: nat) returns (q: nat)
    requires IsWidth(bits)
    ensures n == bits * q + Turn(n, bits)
  {
    q := n / bits;
  }

  lemma TurnUnique(v: nat, bits: nat, q: int, r: nat)
    requires IsWidth(bits) && r < bits && v == bits * q + r
    ensures Turn(v, bits) == r
  {
    PlaceUnique(v, bits, q, r);
  }

  lemma SumOfTurns(m: u64, n: u64, bits: nat, t: nat)
    requires IsWidth(bits) && bits * t == TWO64
    ensures var (j, k) := (Turn(m, bits), Turn(n, bits));
            Turn(Wrap64(m + n), bits) == if j + k < bits then j + k else j + k - bits
  {
    hide IsWidth, Turn;
    var a := TurnOf(m, bits);
    var b := TurnOf(n, bits);
    var x, r: int := m + n, Turn(m, bits) + Turn(n, bits);
    var carry, wraps: int := if r < bits then 0 else 1, if x < TWO64 then 0 else t;
    Distribute(bits, a, b);
    Distribute(bits, a + b, carry);
    Distribute(bits, a + b + carry, wraps);
    TurnUnique(Wrap64(x), bits, a + b + carry - wraps, r - bits * carry);
  }

  // ---- rotation through the carry ----

  datatype WithCarry = WithCarry(value: nat, carry: bool)

  /** The value's bits with the carry on top. */
  function Word(x: WithCarry, bits: nat): (s: seq<bool>)
    ensures |s| == bits + 1
  {
    BitsOf(x.value, bits) + [x.carry]
  }

  /** One bit to the left. Clearing the lowest bit uses a 32-bit complement, which at 64 bits
      clears the upper half as well. */
  function StepLeft(x: WithCarry, bits: nat): WithCarry
    requires IsWidth(bits)
  {
    var shifted := Low(2 * x.value, Pow2(bits));
    var value := if x.carry then shifted + 1 else if bits == 64 then Low(shifted, TWO32) else shifted;
    WithCarry(value, Low(High(x.value, Pow2(bits - 1)), 2) == 1)
  }

  function StepRight(x: WithCarry, bits: nat): WithCarry
    requires IsWidth(bits)
  {
    WithCarry(x.value / 2 + if x.carry then Pow2(bits - 1) else 0, x.value % 2 == 1)
  }

  function RunLeft(x: WithCarry, count: nat, bits: nat): WithCarry
    requires IsWidth(bits)
    decreases count
  {
    if count == 0 then x else RunLeft(StepLeft(x, bits), count - 1, bits)
  }

  function RunRight(x: WithCarry, count: nat, bits: nat): WithCarry
    requires IsWidth(bits)
    decreases count
  {
    if count == 0 then x else RunRight(StepRight(x, bits), count - 1, bits)
  }

  method Rcl(value: nat, n: nat, cf: bool, bits: nat) returns (r: WithCarry)
    requires IsWidth(bits)
    ensures r == RunLeft(WithCarry(value, cf), n % (bits + 1), bits)
  {
    hide StepLeft;
    var count := n % (bits + 1);
    if count == 0 {
      return WithCarry(value, cf);
    }
    r := WithCarry(value, cf);
    for i := 0 to count
      invariant RunLeft(r, count - i, bits) == RunLeft(WithCarry(value, cf), count, bits)
    {
      r := ShiftLeftOnce(r, bits);
    }
  }

  method ShiftLeftOnce(x: WithCarry, bits: nat) returns (r: WithCarry)
    requires IsWidth(bits)
    ensures r == StepLeft(x, bits)
  {
    var newCarry := Low(High(x.value, Pow2(bits - 1)), 2) == 1;
    var value := Low(2 * x.value, Pow2(bits));
    if x.carry {
      value := value + 1;
    } else if bits == 64 {
      value := Low(value, TWO32);
    }
    return WithCarry(value, newCarry);
  }

  method Rcr(value: nat, n: nat, cf: bool, bits: nat) returns (r: WithCarry)
    requires IsWidth(bits)
    ensures r == RunRight(WithCarry(value, cf), n % (bits + 1), bits)
  {
    hide StepRight;
    var count := n % (bits + 1);
    if count == 0 {
      return WithCarry(value, cf);
    }
    r := WithCarry(value, cf);
    for i := 0 to count
      invariant RunRight(r, count - i, bits) == RunRight(WithCarry(value, cf), count, bits)
    {
      r := ShiftRightOnce(r, bits);
    }
  }

  method ShiftRightOnce(x: WithCarry, bits: nat) returns (r: WithCarry)
    requires IsWidth(bits)
    ensures r == StepRight(x, bits)
  {
    var newCarry := x.value % 2 == 1;
    var value := x.value / 2;
    if x.carry {
      value := value + Pow2(bits - 1);
    }
    return WithCarry(value, newCarry);
  }

  /** A step to the left that keeps the bits it shifts: the carry is set, the width is not 64,
      or no bit reaches the upper half. */
  predicate KeepsBits(x: WithCarry, bits: nat)
    requires IsWidth(bits)
  {
    bits != 64 || x.carry || Low(2 * x.value, Pow2(64)) < TWO32
  }

  lemma {:induction false} TopBit(value: nat, bits: nat)
    requires bits >= 1
    ensures
      BitsOf(value, bits) ==
      BitsOf(Low(value, Pow2(bits - 1)), bits - 1) + [Low(High(value, Pow2(bits - 1)), 2) == 1]
  {
    BitsSplit(value, bits - 1, 1);
  }

  lemma {:induction false} ShiftDropsTop(value: nat, bits: nat)
    requires bits >= 1
    ensures Low(2 * value, Pow2(bits)) == 2 * Low(value, Pow2(bits - 1))
  {
    hide Low, High;
    var p := Pow2(bits - 1);
    LowHigh(value, p);
    MulAssoc(2, p, High(value, p));
    Recompose(2 * value, 2 * p, High(value, p), 2 * Low(value, p));
  }

  lemma {:induction false} StepLeftBits(x: WithCarry, bits: nat)
    requires IsWidth(bits) && KeepsBits(x, bits)
    ensures Word(StepLeft(x, bits), bits) == RotateUp(Word(x, bits), 1) && StepLeft(x, bits).value < Pow2(bits)
  {
    hide Low, High, Pow2, BitsOf;
    var lo, top := Low(x.value, Pow2(bits - 1)), Low(High(x.value, Pow2(bits - 1)), 2) == 1;
    TopBit(x.value, bits);
    ShiftDropsTop(x.value, bits);
    Pow2Step(bits);
    var v := 2 * lo + Digit(x.carry);
    if !x.carry && bits == 64 {
      Recompose(2 * lo, TWO32, 0, 2 * lo);
    }
    assert StepLeft(x, bits) == WithCarry(v, top);
    EnterLowest(x.carry, lo, bits - 1);
    SwapHalves(BitsOf(x.value, bits), [x.carry]);
    assert [x.carry] + (BitsOf(lo, bits - 1) + [top]) == [x.carry] + BitsOf(lo, bits - 1) + [top];
  }

  lemma Pow2Step(n: nat)
    requires n >= 1
    ensures Pow2(n) == 2 * Pow2(n - 1)
  {
  }

  lemma EnterLowest(b: bool, v: nat, n: nat)
    ensures BitsOf(2 * v + Digit(b), n + 1) == [b] + BitsOf(v, n)
  {
  }

  lemma LeaveLowest(v: nat, n: nat)
    ensures BitsOf(v, n + 1) == [v % 2 == 1] + BitsOf(v / 2, n)
  {
  }

  lemma EnterTop(b: bool, v: nat, n: nat)
    requires v < Pow2(n)
    ensures BitsOf(v + if b then Pow2(n) else 0, n + 1) == BitsOf(v, n) + [b]
  {
    BitsJoin(v, Digit(b), n, 1);
    assert BitsOf(Digit(b), 1) == [b];
    assert Pow2(n) * Digit(b) == if b then Pow2(n) else 0;
  }

  lemma {:induction false} StepRightBits(x: WithCarry, bits: nat)
    requires IsWidth(bits) && x.value < Pow2(bits)
    ensures Word(StepRight(x, bits), bits) == RotateUp(Word(x, bits), bits) && StepRight(x, bits).value < Pow2(bits)
  {
    hide Low, High, Pow2, BitsOf;
    var half, out := x.value / 2, x.value % 2 == 1;
    Pow2Step(bits);
    LeaveLowest(x.value, bits - 1);
    EnterTop(x.carry, half, bits - 1);
    SwapHalves([out], BitsOf(half, bits - 1) + [x.carry]);
    assert [out] + BitsOf(half, bits - 1) + [x.carry] == [out] + (BitsOf(half, bits - 1) + [x.carry]);
  }

  /** At 8, 16 and 32 bits the bit-by-bit loop to the left is one rotation of value and carry. */
  lemma {:induction false} RunLeftIsRotation(x: WithCarry, count: nat, bits: nat)
    requires IsWidth(bits) && bits != 64 && x.value < Pow2(bits) && count <= bits + 1
    ensures Word(RunLeft(x, count, bits), bits) == RotateUp(Word(x, bits), count)
    ensures RunLeft(x, count, bits).value < Pow2(bits)
    decreases count
  {
    hide StepLeft, Word, Pow2, RotateUp;
    FullTurn(Word(x, bits));
    if count > 0 {
      StepLeftBits(x, bits);
      RunLeftIsRotation(StepLeft(x, bits), count - 1, bits);
      RotateUpTwice(Word(x, bits), 1, count - 1);
    }
  }

  /** At every width the loop to the right is one rotation of value and carry. */
  lemma {:induction false} RunRightIsRotation(x: WithCarry, count: nat, bits: nat)
    requires IsWidth(bits) && x.value < Pow2(bits) && count <= bits + 1
    ensures Word(RunRight(x, count, bits), bits) == RotateUp(Word(x, bits), bits + 1 - count)
    ensures RunRight(x, count, bits).value < Pow2(bits)
    decreases count
  {
    hide StepRight, Word, Pow2, RotateUp;
    FullTurn(Word(x, bits));
    if count > 0 {
      StepRightBits(x, bits);
      RunRightIsRotation(StepRight(x, bits), count - 1, bits);
      RotateUpTwice(Word(x, bits), bits, bits + 2 - count);
    }
  }

  lemma SameWord(x: WithCarry, y: WithCarry, bits: nat)
    requires x.value < Pow2(bits) && y.value < Pow2(bits) && Word(x, bits) == Word(y, bits)
    ensures x == y
  {
    hide BitsOf, Pow2;
    assert BitsOf(x.value, bits) == Word(x, bits)[..bits] && BitsOf(y.value, bits) == Word(y, bits)[..bits];
    assert Word(x, bits)[bits] == x.carry && Word(y, bits)[bits] == y.carry;
    SameBitsSameValue(x.value, y.value, bits);
  }

  /** Left and right undo each other on value and carry at 8, 16 and 32 bits. */
  lemma {:induction false} CarryRotationsInverse(x: WithCarry, count: nat, bits: nat)
    requires IsWidth(bits) && bits != 64 && x.value < Pow2(bits) && count <= bits
    ensures RunRight(RunLeft(x, count, bits), count, bits) == x
    ensures RunLeft(RunRight(x, count, bits), count, bits) == x
  {
    hide RunLeft, RunRight, Word, Pow2, RotateUp;
    var s := Word(x, bits);
    RunLeftIsRotation(x, count, bits);
    RunRightIsRotation(x, count, bits);
    RunRightIsRotation(RunLeft(x, count, bits), count, bits);
    RunLeftIsRotation(RunRight(x, count, bits), count, bits);
    RotateUpTwice(s, count, bits + 1 - count);
    RotateUpTwice(s, bits + 1 - count, count);
    FullTurn(s);
    SameWord(RunRight(RunLeft(x, count, bits), count, bits), x, bits);
    SameWord(RunLeft(RunRight(x, count, bits), count, bits), x, bits);
  }

  // ---- 64 bits to the left ----

  function Ones(s: seq<bool>): nat
    decreases |s|
  {
    if s == [] then 0 else Digit(s[0]) + Ones(s[1..])
  }

  lemma {:induction false} OnesAppend(a: seq<bool>, b: seq<bool>)
    ensures Ones(a + b) == Ones(a) + Ones(b)
    decreases |a|
  {
    if a == [] {
      assert a + b == b;
    } else {
      assert (a + b)[1..] == a[1..] + b;
      OnesAppend(a[1..], b);
    }
  }

  lemma OnesRotated(s: seq<bool>, k: nat)
    requires k <= |s|
    ensures Ones(RotateUp(s, k)) == Ones(s)
  {
    hide Ones;
    OnesAppend(s[|s| - k..], s[..|s| - k]);
    OnesAppend(s[..|s| - k], s[|s| - k..]);
    assert s == s[..|s| - k] + s[|s| - k..];
  }

  lemma {:induction false} NoOnes(s: seq<bool>)
    ensures Ones(s) == 0 <==> forall i :: 0 <= i < |s| ==> !s[i]
    decreases |s|
  {
    if s != [] {
      NoOnes(s[1..]);
      assert forall i :: 0 < i < |s| ==> s[i] == s[1..][i - 1];
    }
  }

  lemma {:induction false} NoBitsNoValue(v: nat, n: nat)
    requires v < Pow2(n)
    ensures Ones(BitsOf(v, n)) == 0 <==> v == 0
  {
    if n > 0 {
      NoBitsNoValue(v / 2, n - 1);
      assert BitsOf(v, n)[1..] == BitsOf(v / 2, n - 1);
    }
  }

  lemma Pow2Of4()
    ensures Pow2(4) == 16
  {
  }

  lemma Pow2Values()
    ensures Pow2(8) == 256 && Pow2(16) == 0x1_0000 && Pow2(32) == TWO32 && Pow2(64) == TWO64
  {
    hide Pow2;
    Pow2Of4();
    Pow2Add(4, 4);
    Pow2Add(8, 8);
    Pow2Add(16, 16);
    Pow2Add(32, 32);
  }

  /** The shifted word as two halves, and the halves' bits among those of the original. */
  lemma {:induction false} ShiftedHalvesOf(x: WithCarry)
    requires x.value < Pow2(64)
    ensures var (shifted, top) := (Low(2 * x.value, Pow2(64)), Low(High(x.value, Pow2(63)), 2) == 1);
            var (lower, upper) := (BitsOf(Low(shifted, TWO32), 32), BitsOf(High(shifted, TWO32), 32));
            && High(shifted, TWO32) < Pow2(32)
            && [false] + Word(x, 64)[..64] == lower + upper + [top]
            && Word(x, 64)[64] == x.carry
  {
    hide Low, High, Pow2, BitsOf;
    var lo, top := Low(x.value, Pow2(63)), Low(High(x.value, Pow2(63)), 2) == 1;
    var shifted := Low(2 * x.value, Pow2(64));
    Pow2Values();
    TopBit(x.value, 64);
    ShiftDropsTop(x.value, 64);
    EnterLowest(false, lo, 63);
    BitsSplit(shifted, 32, 32);
    LowHigh(shifted, TWO32);
    var v := BitsOf(x.value, 64);
    assert Word(x, 64)[..64] == v;
    assert [false] + (BitsOf(lo, 63) + [top]) == [false] + BitsOf(lo, 63) + [top];
  }

  /** The upper half of the shifted word is what is lost when the carry is clear. */
  lemma {:induction false} KeepsBitsMeans(x: WithCarry)
    requires x.value < Pow2(64)
    ensures KeepsBits(x, 64) <==> Word(x, 64)[64] || forall i :: 31 <= i < 63 ==> !Word(x, 64)[i]
  {
    hide Low, High, Pow2, BitsOf;
    ShiftedHalvesOf(x);
    var shifted := Low(2 * x.value, Pow2(64));
    var lower, upper := BitsOf(Low(shifted, TWO32), 32), BitsOf(High(shifted, TWO32), 32);
    LowHigh(shifted, TWO32);
    NoOnes(upper);
    NoBitsNoValue(High(shifted, TWO32), 32);
    var w := [false] + Word(x, 64)[..64];
    assert forall i :: 31 <= i < 63 ==> w[i + 1] == Word(x, 64)[i];
    assert forall i :: 0 <= i < 32 ==> w[32 + i] == upper[i];
    UpperHalf(w, Word(x, 64), upper);
  }

  lemma UpperHalf(w: seq<bool>, s: seq<bool>, upper: seq<bool>)
    requires |s| == 65 && |w| == 65 && |upper| == 32
    requires forall i :: 31 <= i < 63 ==> w[i + 1] == s[i]
    requires forall i :: 0 <= i < 32 ==> w[32 + i] == upper[i]
    ensures (forall i :: 31 <= i < 63 ==> !s[i]) <==> forall i :: 0 <= i < 32 ==> !upper[i]
  {
    forall i | 31 <= i < 63
      ensures s[i] == upper[i - 31]
    {
      assert w[i + 1] == s[i] && w[32 + (i - 31)] == upper[i - 31];
    }
    forall i | 0 <= i < 32
      ensures upper[i] == s[i + 31]
    {
      assert w[(i + 31) + 1] == s[i + 31];
    }
  }

  /** A step never adds ones, and drops some when it does not keep the bits. */
  lemma {:induction false} StepLosesOnes(x: WithCarry)
    requires x.value < Pow2(64)
    ensures var y := StepLeft(x, 64);
            && y.value < Pow2(64) && Ones(Word(y, 64)) <= Ones(Word(x, 64))
            && (!KeepsBits(x, 64) ==> Ones(Word(y, 64)) < Ones(Word(x, 64)))
  {
    hide Low, High, Pow2, BitsOf, RotateUp, Ones;
    if KeepsBits(x, 64) {
      StepLeftBits(x, 64);
      OnesRotated(Word(x, 64), 1);
    } else {
      var shifted, top := Low(2 * x.value, Pow2(64)), Low(High(x.value, Pow2(63)), 2) == 1;
      var kept := Low(shifted, TWO32);
      Pow2Values();
      LowHigh(shifted, TWO32);
      ShiftedHalvesOf(x);
      NoBitsNoValue(High(shifted, TWO32), 32);
      ClearedHalf(kept);
      CountOnes(Word(x, 64), BitsOf(kept, 32), BitsOf(High(shifted, TWO32), 32), BitsOf(0, 32), top);
      assert Word(StepLeft(x, 64), 64) == BitsOf(kept, 32) + BitsOf(0, 32) + [top];
    }
  }

  lemma ClearedHalf(kept: nat)
    requires kept < TWO32
    ensures BitsOf(kept, 64) == BitsOf(kept, 32) + BitsOf(0, 32) && Ones(BitsOf(0, 32)) == 0
  {
    hide BitsOf, Pow2, Ones;
    Pow2Values();
    BitsJoin(kept, 0, 32, 32);
    NoBitsNoValue(0, 32);
  }

  lemma CountOnes(s: seq<bool>, lower: seq<bool>, upper: seq<bool>, zeros: seq<bool>, top: bool)
    requires |s| == 65 && !s[64] && [false] + s[..64] == lower + upper + [top] && Ones(zeros) == 0
    ensures Ones(lower + zeros + [top]) + Ones(upper) == Ones(s)
  {
    hide Ones;
    assert s == s[..64] + [s[64]];
    OnesAppend(s[..64], [false]);
    OnesAppend([false], s[..64]);
    OnesAppend(lower + upper, [top]);
    OnesAppend(lower, upper);
    OnesAppend(lower + zeros, [top]);
    OnesAppend(lower, zeros);
    NoOnes([false]);
  }

  /** No step of the run finds a clear carry while a bit is about to enter the upper half: said
      of the word before the run, whose rotations are what the steps find. */
  ghost predicate Survives(x: WithCarry, count: nat)
    requires count <= 65
  {
    forall j :: 0 <= j < count ==> SurvivesStep(RotateUp(Word(x, 64), j))
  }

  ghost predicate SurvivesStep(s: seq<bool>)
    requires |s| == 65
  {
    s[64] || forall i :: 31 <= i < 63 ==> !s[i]
  }

  lemma {:induction false} RunLosesOnes(x: WithCarry, count: nat)
    requires x.value < Pow2(64)
    ensures Ones(Word(RunLeft(x, count, 64), 64)) <= Ones(Word(x, 64))
    decreases count
  {
    hide StepLeft, Word, Ones, Pow2;
    if count > 0 {
      StepLosesOnes(x);
      RunLosesOnes(StepLeft(x, 64), count - 1);
    }
  }

  lemma {:induction false} SurvivesFirst(x: WithCarry, count: nat)
    requires 0 < count <= 65 && x.value < Pow2(64)
    ensures Survives(x, count) ==> KeepsBits(x, 64)
    ensures KeepsBits(x, 64) ==> (Survives(x, count) <==> Survives(StepLeft(x, 64), count - 1))
  {
    hide StepLeft, Word, Pow2, RotateUp, KeepsBits, SurvivesStep;
    var s := Word(x, 64);
    KeepsBitsStep(x);
    FullTurn(s);
    if KeepsBits(x, 64) {
      StepLeftBits(x, 64);
      forall j | 0 <= j < count - 1
        ensures RotateUp(Word(StepLeft(x, 64), 64), j) == RotateUp(s, j + 1)
      {
        RotateUpTwice(s, 1, j);
      }
      if Survives(StepLeft(x, 64), count - 1) {
        forall j | 0 <= j < count
          ensures SurvivesStep(RotateUp(s, j))
        {
          if j > 0 {
            assert SurvivesStep(RotateUp(Word(StepLeft(x, 64), 64), j - 1));
          }
        }
      }
      if Survives(x, count) {
        forall j | 0 <= j < count - 1
          ensures SurvivesStep(RotateUp(Word(StepLeft(x, 64), 64), j))
        {
          assert SurvivesStep(RotateUp(s, j + 1));
        }
      }
    }
  }

  lemma KeepsBitsStep(x: WithCarry)
    requires x.value < Pow2(64)
    ensures KeepsBits(x, 64) <==> SurvivesStep(Word(x, 64))
  {
    hide Word, KeepsBits, Pow2;
    KeepsBitsMeans(x);
  }

  /** At 64 bits the loop to the left is the rotation of value and carry exactly when no step
      loses bits. */
  lemma {:induction false} WideRunLeft(x: WithCarry, count: nat)
    requires x.value < Pow2(64) && count <= 65
    ensures Word(RunLeft(x, count, 64), 64) == RotateUp(Word(x, 64), count) <==> Survives(x, count)
    decreases count
  {
    hide StepLeft, Word, Pow2, RotateUp, Ones, KeepsBits, Survives;
    FullTurn(Word(x, 64));
    if count == 0 {
      NothingToSurvive(x);
    } else {
      SurvivesFirst(x, count);
      StepLosesOnes(x);
      if KeepsBits(x, 64) {
        StepLeftBits(x, 64);
        WideRunLeft(StepLeft(x, 64), count - 1);
        RotateUpTwice(Word(x, 64), 1, count - 1);
      } else {
        RunLosesOnes(StepLeft(x, 64), count - 1);
        OnesRotated(Word(x, 64), count);
      }
    }
  }

  lemma NothingToSurvive(x: WithCarry)
    ensures Survives(x, 0)
  {
  }

  /** A bit that is about to enter the upper half with the carry clear is lost. */
  lemma WideRunLeftFails()
    ensures RunLeft(WithCarry(0x8000_0000, false), 1, 64) == WithCarry(0, false)
    ensures RotateUp(Word(WithCarry(0x8000_0000, false), 64), 1) != Word(WithCarry(0, false), 64)
  {
    hide Low, High, BitsOf, RotateUp, Ones, Pow2;
    var x := WithCarry(0x8000_0000, false);
    Pow2Values();
    Pow2Step(64);
    Recompose(2 * x.value, TWO64, 0, 2 * x.value);
    Recompose(2 * x.value, TWO32, 1, 0);
    Recompose(x.value, Pow2(63), 0, x.value);
    Recompose(0, 2, 0, 0);
    assert StepLeft(x, 64) == WithCarry(0, false);
    assert RunLeft(x, 1, 64) == RunLeft(StepLeft(x, 64), 0, 64);
    StepLosesOnes(x);
    OnesRotated(Word(x, 64), 1);
  }

  lemma {:induction false} RunLeftStaysInside(x: WithCarry, count: nat, bits: nat)
    requires IsWidth(bits) && x.value < Pow2(bits)
    ensures RunLeft(x, count, bits).value < Pow2(bits)
    decreases count
  {
    hide StepLeft, Pow2, KeepsBits;
    if count > 0 {
      if KeepsBits(x, bits) {
        StepLeftBits(x, bits);
      } else {
        OnlyWideLoses(x, bits);
        StepLosesOnes(x);
      }
      RunLeftStaysInside(StepLeft(x, bits), count - 1, bits);
    }
  }

  lemma OnlyWideLoses(x: WithCarry, bits: nat)
    requires IsWidth(bits) && !KeepsBits(x, bits)
    ensures bits == 64
  {
    hide Pow2, Low;
  }

  lemma {:induction false} RunRightStaysInside(x: WithCarry, count: nat, bits: nat)
    requires IsWidth(bits) && x.value < Pow2(bits)
    ensures RunRight(x, count, bits).value < Pow2(bits)
    decreases count
  {
    hide StepRight, Pow2;
    if count > 0 {
      StepRightBits(x, bits);
      RunRightStaysInside(StepRight(x, bits), count - 1, bits);
    }
  }
}
