/**
 Lane sequence numbers: successors are masked to the negotiated resolution
 (internal/transport/batcher.go, fragmenter.go, reassembler.go).
 */
module SequenceNumbers {
  import opened Buffer
  import Vle

  /** Bitwise and of two naturals. */
  function BitAnd(x: nat, y: nat): (r: nat)
    ensures r <= y
  {
    if x == 0 || y == 0 then 0
    else (if x % 2 == 1 && y % 2 == 1 then 1 else 0) + 2 * BitAnd(x / 2, y / 2)
  }

  /** The mask that stands for "not set" admits every 64-bit number. */
  function NormalizeMask(mask: uint64): uint64 {
    if mask == 0 then U64 - 1 else mask
  }

  function Next(sn: uint64, mask: uint64): uint64 {
    BitAnd((sn + 1) % U64, mask)
  }

  /** The `k`-th number of a lane that starts at `seed`. */
  function Nth(seed: uint64, mask: uint64, k: nat): uint64 {
    if k == 0 then seed else Next(Nth(seed, mask, k - 1), mask)
  }

  lemma MulAtLeast(d: int, m: nat)
    requires d >= 1
    ensures d * m >= m
  {
    assert d * m == (d - 1) * m + m;
  }

  /** Quotient and remainder are unique. */
  lemma ModUnique(x: nat, m: nat, q: nat, r: nat)
    requires r < m && x == q * m + r
    ensures x % m == r
  {
    var q', r' := x / m, x % m;
    assert x == q' * m + r';
    assert (q - q') * m == r' - r;
    if q > q' {
      MulAtLeast(q - q', m);
    } else if q < q' {
      assert (q' - q) * m == r - r';
      MulAtLeast(q' - q, m);
    }
  }

  lemma DivModHalf(x: nat, p: nat)
    requires p > 0
    ensures x % (2 * p) == x % 2 + 2 * (x / 2 % p)
  {
    var q, r := x / 2 / p, x / 2 % p;
    assert x / 2 == q * p + r;
    assert x == q * (2 * p) + (x % 2 + 2 * r);
    ModUnique(x, 2 * p, q, x % 2 + 2 * r);
  }

  lemma BitAndOdd(x: nat, m: nat)
    ensures BitAnd(x, 2 * m + 1) == x % 2 + 2 * BitAnd(x / 2, m)
  {
    assert (2 * m + 1) / 2 == m && (2 * m + 1) % 2 == 1;
  }

  /** Masking with n one bits is the remainder modulo 2^n. */
  lemma {:induction false} AndOfOnes(x: nat, n: nat)
    ensures BitAnd(x, Vle.Pow2(n) - 1) == x % Vle.Pow2(n)
    decreases n
  {
    hide BitAnd;
    if n == 0 {
      ModUnique(x, 1, x, 0);
      assert BitAnd(x, 0) == 0;
    } else {
      var p := Vle.Pow2(n - 1);
      assert Vle.Pow2(n) - 1 == 2 * (p - 1) + 1;
      BitAndOdd(x, p - 1);
      AndOfOnes(x / 2, n - 1);
      DivModHalf(x, p);
    }
  }

  lemma {:induction false} Pow2Splits(n: nat, k: nat)
    ensures Vle.Pow2(n + k) == Vle.Pow2(k) * Vle.Pow2(n)
  {
    if k > 0 {
      Pow2Splits(n, k - 1);
      assert Vle.Pow2(n + k) == 2 * Vle.Pow2(n + (k - 1));
    }
  }

  lemma PowerOf16()
    ensures Vle.Pow2(4) == 16
  {
  }

  lemma Pow2Of64()
    ensures Vle.Pow2(64) == U64
  {
    hide Vle.Pow2;
    PowerOf16();
    Pow2Splits(4, 4);
    Pow2Splits(8, 8);
    Pow2Splits(16, 16);
    Pow2Splits(32, 32);
  }

  /** With an n-bit mask the successor counts modulo 2^n, also where the 64-bit
      addition wraps. */
  lemma NextIsModular(sn: uint64, n: nat)
    requires n <= 64
    ensures Vle.Pow2(n) <= U64
    ensures Next(sn, Vle.Pow2(n) - 1) == (sn + 1) % Vle.Pow2(n)
  {
    hide BitAnd, Vle.Pow2;
    Pow2Of64();
    Pow2Splits(n, 64 - n);
    var p, q := Vle.Pow2(n), Vle.Pow2(64 - n);
    MulAtLeast(q, p);
    AndOfOnes((sn + 1) % U64, n);
    if sn + 1 == U64 {
      ModUnique(U64, p, q, 0);
      ModUnique(0, p, 0, 0);
    } else {
      ModUnique(sn + 1, U64, 0, sn + 1);
    }
  }

  /** The k-th number of a lane is (seed + k) modulo 2^n. */
  lemma {:induction false} NthIsModular(seed: uint64, n: nat, k: nat)
    requires n <= 64 && Vle.Pow2(n) <= U64 && seed < Vle.Pow2(n)
    ensures Nth(seed, Vle.Pow2(n) - 1, k) == (seed + k) % Vle.Pow2(n)
  {
    hide Next, Vle.Pow2;
    var p := Vle.Pow2(n);
    if k == 0 {
      ModUnique(seed, p, 0, seed);
    } else {
      NthIsModular(seed, n, k - 1);
      NextIsModular(Nth(seed, p - 1, k - 1), n);
      SuccessorOfRemainder(seed + k - 1, p);
    }
  }

  lemma SuccessorOfRemainder(x: nat, p: nat)
    requires p > 0
    ensures (x % p + 1) % p == (x + 1) % p
  {
    var q, r := x / p, x % p;
    assert x == q * p + r;
    if r + 1 < p {
      ModUnique(x + 1, p, q, r + 1);
      ModUnique(r + 1, p, 0, r + 1);
    } else {
      assert x + 1 == (q + 1) * p;
      ModUnique(x + 1, p, q + 1, 0);
      ModUnique(r + 1, p, 1, 0);
    }
  }
}
