/** Powers of two, and the operations the containers do with them: shifts, masks and logarithms. */
module Bits {
  function Pow2(n: nat): (r: nat)
    ensures r > 0
  {
    if n == 0 then 1 else 2 * Pow2(n - 1)
  }

  lemma {:induction false} Pow2Sum(a: nat, b: nat)
    ensures Pow2(a + b) == Pow2(a) * Pow2(b)
  {
    if a > 0 {
      Pow2Sum(a - 1, b);
      assert a - 1 + b == a + b - 1;
      hide *;
      Pow2Step(a);
      Pow2Step(a + b);
      Doubled(Pow2(a - 1), Pow2(b));
    }
  }

  lemma Pow2Step(n: nat)
    requires n > 0
    ensures Pow2(n) == 2 * Pow2(n - 1)
  {
  }

  lemma Doubled(x: nat, y: nat)
    ensures 2 * (x * y) == (2 * x) * y
  {
  }

  lemma {:induction false} Pow2Grows(a: nat, b: nat)
    requires a <= b
    ensures Pow2(a) <= Pow2(b)
    ensures a < b ==> 2 * Pow2(a) <= Pow2(b)
    decreases b - a
  {
    if a < b { Pow2Grows(a, b - 1); }
  }

  /** The position of the highest bit. */
  function Log2(x: nat): (r: nat)
    requires x > 0
    ensures Pow2(r) <= x < 2 * Pow2(r)
  {
    if x == 1 then 0 else Log2(x / 2) + 1
  }

  lemma Log2Is(x: nat, k: nat)
    requires Pow2(k) <= x < 2 * Pow2(k)
    ensures x > 0 && Log2(x) == k
  {
    var r := Log2(x);
    if r < k { Pow2Grows(r, k); } else if k < r { Pow2Grows(k, r); }
  }

  /** Taking multiples of t away changes nothing modulo t. */
  lemma ModDrop(x: nat, q: nat, t: nat)
    requires t > 0 && q * t <= x
    ensures (x - q * t) % t == x % t
  {
    var a, b := x / t, (x - q * t) / t;
    assert x % t - (x - q * t) % t == (b - a + q) * t;
    NotBetween(b - a + q, t, x % t - (x - q * t) % t);
  }

  lemma NotBetween(k: int, t: int, d: int)
    requires k * t == d && 0 - t < d < t
    ensures d == 0
  {
    assert k >= 1 ==> k * t >= t;
    assert k <= -1 ==> k * t <= 0 - t;
  }

  /** Modulo a smaller power of two first or last. */
  lemma ModMod(x: nat, a: nat, b: nat)
    requires a <= b
    ensures (x % Pow2(b)) % Pow2(a) == x % Pow2(a)
  {
    Pow2Sum(b - a, a);
    hide Pow2;
    ModModBy(x, Pow2(b - a), Pow2(a));
  }

  lemma ModModBy(x: nat, s: nat, t: nat)
    requires s > 0 && t > 0
    ensures s * t > 0 && (x % (s * t)) % t == x % t
  {
    var n := s * t;
    var q := x / n;
    assert x == q * n + x % n;
    assert (q * s) * t == q * n;
    ModDrop(x, q * s, t);
  }

  /** Without its highest bit. */
  function ClearTop(x: nat): (r: nat)
    requires x > 0
    ensures r < x
  {
    x - Pow2(Log2(x))
  }

  lemma ClearTopMod(x: nat, j: nat)
    requires x >= Pow2(j)
    ensures x > 0 && ClearTop(x) % Pow2(j) == x % Pow2(j)
  {
    var l := Log2(x);
    if l < j { Pow2Grows(l, j); }
    Pow2Sum(l - j, j);
    ModDrop(x, Pow2(l - j), Pow2(j));
  }

  /** The lowest j bits: x & (2^j - 1). */
  function Low(x: nat, j: nat): (r: nat)
    ensures r <= x && r < Pow2(j)
    ensures x < Pow2(j) ==> r == x
  {
    if x < Pow2(j) then x else Low(ClearTop(x), j)
  }

  /** ... which is the remainder. */
  lemma {:induction false} LowIsMod(x: nat, j: nat)
    ensures Low(x, j) == x % Pow2(j)
    decreases x
  {
    if x < Pow2(j) {
      SmallMod(x, Pow2(j));
    } else {
      ClearTopMod(x, j);
      LowIsMod(ClearTop(x), j);
    }
  }

  lemma SmallMod(x: nat, t: nat)
    requires x < t
    ensures x % t == x
  {
  }

  lemma LowLow(x: nat, a: nat, b: nat)
    requires a <= b
    ensures Low(Low(x, b), a) == Low(x, a)
  {
    LowIsMod(x, b);
    LowIsMod(Low(x, b), a);
    LowIsMod(x, a);
    ModMod(x, a, b);
  }

  /** Bit i of x is set. */
  predicate HasBit(x: nat, i: nat)
  {
    Low(x, i + 1) >= Pow2(i)
  }

  /** One more bit of the mask adds that bit of the number. */
  lemma LowStep(x: nat, i: nat)
    ensures Low(x, i + 1) == Low(x, i) + if HasBit(x, i) then Pow2(i) else 0
    ensures HasBit(x, i) ==> Log2(Low(x, i + 1)) == i && ClearTop(Low(x, i + 1)) == Low(x, i)
  {
    LowLow(x, i, i + 1);
    var y := Low(x, i + 1);
    if y >= Pow2(i) {
      Log2Is(y, i);
      assert Low(y, i) == Low(ClearTop(y), i) == ClearTop(y);
    }
  }
}
