/** Bit masks on the unsigned machine word: when `x & size` is the remainder modulo `size + 1`. */
module Mask {

  /** One more than the largest size_t. */
  const WORD: nat := 0x1_0000_0000

  function Pow2(k: nat): (p: nat)
    ensures p > 0
  {
    if k == 0 then 1 else 2 * Pow2(k - 1)
  }

  /** Bitwise and. */
  function And(a: nat, b: nat): (r: nat)
    ensures r <= a
  {
    if a == 0 || b == 0 then 0
    else 2 * And(a / 2, b / 2) + (if a % 2 == 1 && b % 2 == 1 then 1 else 0)
  }

  /** Subtraction of size_t values. */
  function Sub(a: int, b: int): (r: nat)
    ensures r < WORD
  {
    (a - b) % WORD
  }

  /** The bit trick of the maths header; `num - 1` cannot wrap once num is not 0. */
  predicate IsPowerOfTwo(num: nat) {
    num != 0 && And(num, num - 1) == 0
  }

  lemma {:induction false} AndSelf(a: nat)
    ensures And(a, a) == a
  {
    if a != 0 {
      AndSelf(a / 2);
    }
  }

  lemma {:induction false} PowerOfTwoIsPow2(num: nat)
    requires IsPowerOfTwo(num)
    ensures exists k: nat :: num == Pow2(k)
  {
    var m := num / 2;
    if num == 1 {
      assert num == Pow2(0);
    } else if num % 2 == 1 {
      assert (num - 1) / 2 == m;
      AndSelf(m);
      assert false;
    } else {
      assert (num - 1) / 2 == m - 1;
      PowerOfTwoIsPow2(m);
      var k: nat :| m == Pow2(k);
      assert num == Pow2(k + 1);
    }
  }

  lemma {:induction false} Pow2IsPowerOfTwo(k: nat)
    ensures IsPowerOfTwo(Pow2(k))
  {
    if k > 0 {
      var m := Pow2(k - 1);
      Pow2IsPowerOfTwo(k - 1);
      assert (2 * m) / 2 == m && (2 * m - 1) / 2 == m - 1;
    }
  }

  /** MAIN: the test accepts exactly the powers of two. */
  lemma IsPowerOfTwoIff(num: nat)
    ensures IsPowerOfTwo(num) <==> exists k: nat :: num == Pow2(k)
  {
    if IsPowerOfTwo(num) {
      PowerOfTwoIsPow2(num);
    }
    if k: nat :| num == Pow2(k) {
      Pow2IsPowerOfTwo(k);
    }
  }

  /** Masking with 2^k - 1 takes the remainder modulo 2^k. */
  lemma {:induction false} AndMask(x: nat, k: nat)
    ensures And(x, Pow2(k) - 1) == x % Pow2(k)
  {
    if x != 0 && k > 0 {
      var p := Pow2(k - 1);
      assert (2 * p - 1) / 2 == p - 1 && (2 * p - 1) % 2 == 1;
      AndMask(x / 2, k - 1);
      HalfModulo(x, p);
      if p == 1 {
        assert And(x / 2, 0) == 0;
      }
    }
  }

  lemma HalfModulo(x: nat, p: nat)
    requires p > 0
    ensures x % (2 * p) == 2 * ((x / 2) % p) + x % 2
  {
    var q, r := (x / 2) / p, (x / 2) % p;
    assert x / 2 == q * p + r;
    assert x == q * (2 * p) + (2 * r + x % 2);
    ModuloUnique(x, 2 * p, q, 2 * r + x % 2);
  }

  lemma MultipleInRange(d: int, n: nat)
    ensures 0 - n < d * n < n ==> d == 0
  {
  }

  lemma ModuloUnique(x: int, n: nat, q: int, r: int)
    requires n > 0 && x == q * n + r && 0 <= r < n
    ensures x % n == r && x / n == q
  {
    var d := x / n - q;
    assert d * n == r - x % n by {
      assert x == (x / n) * n + x % n;
      assert d * n == (x / n) * n - q * n;
    }
    MultipleInRange(d, n);
  }

  lemma {:induction false} Pow2Divides(j: nat, k: nat)
    requires j <= k
    ensures Pow2(k) % Pow2(j) == 0
    decreases k - j
  {
    if j < k {
      Pow2Divides(j, k - 1);
      var q := Pow2(k - 1) / Pow2(j);
      ModuloUnique(Pow2(k), Pow2(j), 2 * q, 0);
    } else {
      ModuloUnique(Pow2(k), Pow2(j), 1, 0);
    }
  }

  lemma {:induction false} Pow2Monotone(j: nat, k: nat)
    requires j <= k
    ensures Pow2(j) <= Pow2(k)
    decreases k - j
  {
    if j < k {
      Pow2Monotone(j, k - 1);
    }
  }

  lemma WordIsPow2()
    ensures Pow2(32) == WORD
  {
    assert Pow2(8) == 0x100;
    assert Pow2(16) == 0x1_0000;
    assert Pow2(24) == 0x100_0000;
  }

  lemma ModuloOfModulo(x: int, big: nat, small: nat)
    requires small > 0 && big > 0 && big % small == 0
    ensures (x % big) % small == x % small
  {
    var q, d := x / big, big / small;
    assert x == q * big + x % big;
    assert big == d * small;
    var r, e := (x % big) % small, (x % big) / small;
    assert x % big == e * small + r;
    assert x == (q * d + e) * small + r by {
      assert q * big == (q * d) * small;
    }
    ModuloUnique(x, small, q * d + e, r);
  }

  /** MAIN: for every size the buffer can have, masking a wrapped difference is arithmetic modulo
      the size, even where the difference is negative. */
  lemma MaskIsModulo(x: int, size: nat)
    requires IsPowerOfTwo(size + 1) && size + 1 < WORD
    ensures And(x % WORD, size) == x % (size + 1)
  {
    PowerOfTwoIsPow2(size + 1);
    var k: nat :| size + 1 == Pow2(k);
    WordIsPow2();
    if k > 32 {
      Pow2Monotone(32, k);
    }
    Pow2Divides(k, 32);
    AndMask(x % WORD, k);
    ModuloOfModulo(x, WORD, size + 1);
  }
}
