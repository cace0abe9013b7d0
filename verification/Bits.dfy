/** Bitwise operators on unsigned words, defined bit by bit on natural numbers, and the
    arithmetic each masking idiom of the kernel amounts to. A word of width n is a natural
    number below Pow2(n). */
module Bits {

  function Pow2(k: nat): (r: nat)
    ensures r > 0
  {
    if k == 0 then 1 else 2 * Pow2(k - 1)
  }

  /** a | b */
  function Or(a: nat, b: nat): nat
    decreases a + b
  {
    if a == 0 && b == 0 then 0
    else (if a % 2 == 1 || b % 2 == 1 then 1 else 0) + 2 * Or(a / 2, b / 2)
  }

  /** a & b */
  function And(a: nat, b: nat): nat
    decreases a + b
  {
    if a == 0 && b == 0 then 0
    else (if a % 2 == 1 && b % 2 == 1 then 1 else 0) + 2 * And(a / 2, b / 2)
  }

  /** ~a in a word of width n */
  function Not(n: nat, a: nat): nat
    requires a < Pow2(n)
  {
    Pow2(n) - 1 - a
  }

  /** w >> k */
  function Shr(w: nat, k: nat): nat {
    if k == 0 then w else Shr(w / 2, k - 1)
  }

  /** Bit k of w. */
  predicate Bit(w: nat, k: nat) {
    if k == 0 then w % 2 == 1 else Bit(w / 2, k - 1)
  }

  // ---- one bit at a time ----

  lemma Pow2Step(k: nat)
    requires k > 0
    ensures Pow2(k) == 2 * Pow2(k - 1)
  {
  }

  lemma OrStep(a: nat, b: nat)
    ensures Or(a, b) == (if a % 2 == 1 || b % 2 == 1 then 1 else 0) + 2 * Or(a / 2, b / 2)
  {
  }

  lemma AndStep(a: nat, b: nat)
    ensures And(a, b) == (if a % 2 == 1 && b % 2 == 1 then 1 else 0) + 2 * And(a / 2, b / 2)
  {
  }

  lemma MulDouble(a: nat, b: nat)
    ensures (2 * a) * b == 2 * (a * b) == a * (2 * b)
  {
  }

  lemma {:induction false} Pow2Add(a: nat, b: nat)
    ensures Pow2(a + b) == Pow2(a) * Pow2(b)
  {
    if a > 0 {
      Pow2Add(a - 1, b);
      Pow2Step(a);
      Pow2Step(a + b);
      MulDouble(Pow2(a - 1), Pow2(b));
      hide Pow2;
    }
  }

  lemma Pow2Values()
    ensures Pow2(3) == 8 && Pow2(6) == 64 && Pow2(8) == 0x100
    ensures Pow2(12) == 0x1000 && Pow2(21) == 0x20_0000
    ensures Pow2(32) == 0x1_0000_0000 && Pow2(64) == 0x1_0000_0000_0000_0000
  {
    assert Pow2(1) == 2 && Pow2(3) == 8 && Pow2(4) == 16 && Pow2(6) == 64;
    Pow2Add(4, 4);
    Pow2Add(8, 4);
    Pow2Add(8, 1);
    Pow2Add(12, 9);
    Pow2Add(8, 8);
    Pow2Add(16, 16);
    Pow2Add(32, 32);
    hide Pow2;
  }

  lemma {:induction false} Pow2Monotone(a: nat, b: nat)
    requires a < b
    ensures 2 * Pow2(a) <= Pow2(b)
  {
    if a + 1 < b { Pow2Monotone(a, b - 1); }
  }

  /** (w >> k) & 1 reads bit k. */
  lemma {:induction false} ShrAndOne(w: nat, k: nat)
    ensures And(Shr(w, k), 1) == if Bit(w, k) then 1 else 0
  {
    if k == 0 {
      AndSmall(w);
    } else {
      ShrAndOne(w / 2, k - 1);
    }
  }

  lemma {:induction false} ShrPow2(n: nat, k: nat)
    requires k <= n
    ensures Shr(Pow2(n), k) == Pow2(n - k)
  {
    if k > 0 {
      assert Pow2(n) / 2 == Pow2(n - 1);
      ShrPow2(n - 1, k - 1);
    }
  }

  lemma {:induction false} AndZero(w: nat)
    ensures And(w, 0) == 0
  {
    if w > 0 { AndZero(w / 2); }
  }

  lemma AndSmall(w: nat)
    ensures And(w, 1) == w % 2
    ensures And(w, 2) == 2 * (w / 2 % 2)
  {
    AndZero(w / 2);
    AndZero(w / 4);
    assert And(w / 2, 1) == w / 2 % 2 + 2 * And(w / 4, 0);
    assert And(w, 2) == 2 * And(w / 2, 1);
  }

  /** w | (1 << k) adds bit k when it is clear and is w otherwise. */
  lemma {:induction false} OrPow2(w: nat, k: nat)
    ensures Or(w, Pow2(k)) == if Bit(w, k) then w else w + Pow2(k)
  {
    if k == 0 {
      OrZero(w / 2);
    } else {
      OrPow2(w / 2, k - 1);
      assert Pow2(k) % 2 == 0 && Pow2(k) / 2 == Pow2(k - 1);
    }
  }

  /** w & (1 << k) tests bit k. */
  lemma {:induction false} AndPow2(w: nat, k: nat)
    ensures And(w, Pow2(k)) == if Bit(w, k) then Pow2(k) else 0
  {
    if k == 0 {
      AndZero(w / 2);
    } else {
      AndPow2(w / 2, k - 1);
      assert Pow2(k) % 2 == 0 && Pow2(k) / 2 == Pow2(k - 1);
    }
  }

  lemma {:induction false} OrZero(w: nat)
    ensures Or(w, 0) == w
  {
    if w > 0 { OrZero(w / 2); }
  }

  /** w & ~(1 << k) takes bit k away when it is set and is w otherwise. */
  lemma {:induction false} AndNotPow2(n: nat, w: nat, k: nat)
    requires w < Pow2(n) && k < n
    ensures Pow2(k) < Pow2(n)
    ensures And(w, Not(n, Pow2(k))) == if Bit(w, k) then w - Pow2(k) else w
    ensures Bit(w, k) ==> Pow2(k) <= w
  {
    Pow2Monotone(k, n);
    Pow2Step(n);
    if k == 0 {
      AndNotOne(n, w);
    } else {
      AndNotPow2(n - 1, w / 2, k - 1);
      Pow2Step(k);
      TakeBit(w, Not(n - 1, Pow2(k - 1)), Pow2(k - 1), Bit(w, k));
    }
    hide And, Pow2;
  }

  lemma AndNotOne(n: nat, w: nat)
    requires w < Pow2(n) && 0 < n
    ensures Pow2(0) == 1 < Pow2(n) && And(w, Not(n, Pow2(0))) == if w % 2 == 1 then w - 1 else w
  {
    Pow2Step(n);
    AndOnes(n - 1, w / 2);
    var x := Pow2(n - 1) - 1;
    AndStep(w, 2 * x);
    HalfEven(2 * x, x);
    hide And;
  }

  lemma TakeBit(w: nat, x: nat, p: nat, bit: bool)
    requires And(w / 2, x) == (if bit then w / 2 - p else w / 2) && (bit ==> p <= w / 2)
    ensures And(w, 2 * x + 1) == if bit then w - 2 * p else w
  {
    hide And;
    AndStep(w, 2 * x + 1);
    HalfOdd(2 * x + 1, x);
  }

  lemma HalfEven(m: nat, x: nat)
    requires m == 2 * x
    ensures m / 2 == x && m % 2 == 0
  {
  }

  lemma HalfOdd(m: nat, x: nat)
    requires m == 2 * x + 1
    ensures m / 2 == x && m % 2 == 1
  {
  }

  lemma {:induction false} AndOnes(n: nat, w: nat)
    requires w < Pow2(n)
    ensures And(w, Pow2(n) - 1) == w
  {
    if n > 0 {
      Pow2Step(n);
      AndOnes(n - 1, w / 2);
      AndStep(w, Pow2(n) - 1);
      hide And, Pow2;
    }
  }

  lemma ModDouble(w: nat, m: nat)
    requires m > 0
    ensures w % (2 * m) == 2 * (w / 2 % m) + w % 2
    ensures w / (2 * m) == w / 2 / m
  {
    var q, r, b := w / 2 / m, w / 2 % m, w % 2;
    DivMod(w / 2, m);
    assert w == 2 * (m * q + r) + b;
    MulDouble(m, q);
    DivModUnique(w, 2 * m, q, 2 * r + b);
  }

  lemma DivMod(w: nat, m: nat)
    requires m > 0
    ensures w == m * (w / m) + w % m && 0 <= w % m < m
  {
  }

  lemma MulSum(m: nat, a: nat, b: nat)
    ensures m * (a + b) == m * a + m * b
  {
  }

  lemma DivModUnique(w: nat, m: nat, q: nat, r: nat)
    requires 0 < m && r < m && w == m * q + r
    ensures w / m == q && w % m == r
  {
    var d := w / m - q;
    assert m * d == m * (w / m) - m * q == r - w % m;
    MulSmall(m, d);
  }

  lemma DivDiv(w: nat, m: nat, n: nat)
    requires m > 0 && n > 0
    ensures m * n > 0 && w / (m * n) == w / m / n
  {
    DivMod(w, m);
    DivMod(w / m, n);
    DivDivIn(w, m, n, w / m, w % m, w / m / n, w / m % n);
  }

  lemma DivDivIn(w: nat, m: nat, n: nat, a: nat, r: nat, b: nat, t: nat)
    requires m > 0 && n > 0 && w == m * a + r && r < m && a == n * b + t && t < n
    ensures m * n > 0 && w / (m * n) == b
  {
    MulSum(m, n * b, t);
    MulAssoc(m, n, b);
    MulLess(m, t, n);
    DivModUnique(w, m * n, b, m * t + r);
  }

  lemma MulAssoc(a: nat, b: nat, c: nat)
    ensures a * (b * c) == (a * b) * c
  {
  }

  lemma MulLess(m: nat, t: nat, n: nat)
    requires t < n && 0 < m
    ensures m * t + m <= m * n && 0 < m * n
  {
    MulSum(m, t, n - t);
    MulSmall(m, n - t);
  }

  lemma ModAdd(a: nat, k: nat, m: nat)
    requires 0 < m
    ensures (a % m + k) % m == (a + k) % m
  {
    DivMod(a, m);
    DivMod(a % m + k, m);
    ModAddIn(a, k, m, a / m, a % m, (a % m + k) / m, (a % m + k) % m);
  }

  lemma ModAddIn(a: nat, k: nat, m: nat, q: nat, r: nat, q': nat, r': nat)
    requires a == m * q + r && r + k == m * q' + r' && r' < m
    ensures (a + k) % m == r'
  {
    MulSum(m, q, q');
    DivModUnique(a + k, m, q + q', r');
  }

  /** Numbers less than m apart differ modulo m. */
  lemma ModDiffers(x: nat, y: nat, m: nat)
    requires x < y < x + m
    ensures x % m != y % m
  {
    DivMod(x, m);
    DivMod(y, m);
    RemaindersDiffer(x, y, m, x / m, x % m, y / m, y % m);
  }

  lemma RemaindersDiffer(x: nat, y: nat, m: nat, q: nat, r: nat, q': nat, r': nat)
    requires x < y < x + m && x == m * q + r && y == m * q' + r'
    ensures r != r'
  {
    assert m * (q' - q) == m * q' - m * q;
    MulSmall(m, q' - q);
  }

  lemma ModSmall(x: nat, m: nat)
    requires x < m
    ensures x % m == x
  {
    DivModUnique(x, m, 0, x);
  }

  lemma MulSmall(m: nat, d: int)
    ensures d >= 1 ==> m * d >= m
    ensures d <= -1 ==> m * d <= 0 - m
  {
  }

  /** w & ~((1 << k) - 1) rounds w down to a multiple of 2^k. */
  lemma {:induction false} AndNotLow(n: nat, w: nat, k: nat)
    requires w < Pow2(n) && k <= n
    ensures Pow2(k) - 1 < Pow2(n)
    ensures And(w, Not(n, Pow2(k) - 1)) == w - w % Pow2(k)
  {
    if k == 0 {
      AndOnes(n, w);
    } else {
      AndNotLow(n - 1, w / 2, k - 1);
      AndNotLowStep(n, w, k);
    }
  }

  lemma AndNotLowStep(n: nat, w: nat, k: nat)
    requires w < Pow2(n) && 0 < k <= n && Pow2(k - 1) - 1 < Pow2(n - 1)
    requires And(w / 2, Not(n - 1, Pow2(k - 1) - 1)) == w / 2 - w / 2 % Pow2(k - 1)
    ensures Pow2(k) - 1 < Pow2(n)
    ensures And(w, Not(n, Pow2(k) - 1)) == w - w % Pow2(k)
  {
    hide And, Pow2;
    Pow2Step(n);
    Pow2Step(k);
    RoundDown(w, Pow2(k - 1), Not(n - 1, Pow2(k - 1) - 1));
  }

  lemma RoundDown(w: nat, p: nat, x: nat)
    requires p > 0 && And(w / 2, x) == w / 2 - w / 2 % p
    ensures And(w, 2 * x) == w - w % (2 * p)
  {
    hide And;
    AndStep(w, 2 * x);
    HalfEven(2 * x, x);
    ModDouble(w, p);
  }

  /** Or with flags below the alignment of a is addition. */
  lemma {:induction false} OrLow(a: nat, k: nat, b: nat)
    requires b < Pow2(k)
    ensures Or(a * Pow2(k), b) == a * Pow2(k) + b
  {
    if k == 0 {
      OrZero(a);
    } else {
      Pow2Step(k);
      OrLow(a, k - 1, b / 2);
      var x := a * Pow2(k - 1);
      MulDouble(a, Pow2(k - 1));
      assert a * Pow2(k) == 2 * x;
      OrStep(2 * x, b);
      hide Or, Pow2;
    }
  }

  /** Adding a clear bit changes that bit alone and stays in the word. */
  lemma {:induction false} BitAfterAdd(n: nat, w: nat, k: nat, j: nat)
    requires w < Pow2(n) && k < n && !Bit(w, k)
    ensures w + Pow2(k) < Pow2(n)
    ensures Bit(w + Pow2(k), j) <==> j == k || Bit(w, j)
  {
    if k == 0 {
      assert (w + 1) / 2 == w / 2;
    } else {
      assert (w + Pow2(k)) / 2 == w / 2 + Pow2(k - 1);
      BitAfterAdd(n - 1, w / 2, k - 1, if j > 0 then j - 1 else 0);
    }
  }

  /** Taking a set bit away changes that bit alone. */
  lemma {:induction false} BitAfterSub(w: nat, k: nat, j: nat)
    requires Bit(w, k) && Pow2(k) <= w
    ensures Bit(w - Pow2(k), j) <==> j != k && Bit(w, j)
  {
    if k == 0 {
      assert (w - 1) / 2 == w / 2;
    } else {
      assert (w - Pow2(k)) / 2 == w / 2 - Pow2(k - 1);
      BitAfterSub(w / 2, k - 1, if j > 0 then j - 1 else 0);
    }
  }

  /** A word is determined by its bits. */
  lemma {:induction false} BitsDetermine(n: nat, v: nat, w: nat)
    requires v < Pow2(n) && w < Pow2(n)
    requires forall k :: 0 <= k < n ==> Bit(v, k) == Bit(w, k)
    ensures v == w
  {
    if n > 0 {
      assert Bit(v, 0) == Bit(w, 0);
      forall k | 0 <= k < n - 1 ensures Bit(v / 2, k) == Bit(w / 2, k) {
        assert Bit(v, k + 1) == Bit(w, k + 1);
      }
      BitsDetermine(n - 1, v / 2, w / 2);
    }
  }

  lemma {:induction false} ZeroBit(k: nat)
    ensures !Bit(0, k)
  {
    if k > 0 { ZeroBit(k - 1); }
  }
}
