/** Arithmetic of address blocks: splitting a number into the bits above and
    below a mask boundary, and counting the octets the probe skips. */
module Blocks {

  function Pow2(n: nat): (p: nat)
    ensures p > 0
  {
    if n == 0 then 1 else 2 * Pow2(n - 1)
  }

  /** The ceiling of the binary logarithm. */
  function CeilLog2(n: nat): (k: nat)
    requires n > 0
    ensures n <= Pow2(k) && (k > 0 ==> Pow2(k - 1) < n)
  {
    if n == 1 then 0 else 1 + CeilLog2((n + 1) / 2)
  }

  /** The bits of `v` above the lowest `k`. */
  function High(v: nat, k: nat): nat {
    if k == 0 then v else High(v / 2, k - 1)
  }

  /** The lowest `k` bits of `v`. */
  function Low(v: nat, k: nat): (r: nat)
    ensures r < Pow2(k) && r <= v
  {
    if k == 0 then 0 else 2 * Low(v / 2, k - 1) + v % 2
  }

  /** `v` with its lowest `k` bits cleared. */
  function Masked(v: nat, k: nat): nat {
    v - Low(v, k)
  }

  lemma MulDistributes(b: int, x: int, y: int)
    ensures b * (x - y) == b * x - b * y
    ensures b * (x + y) == b * x + b * y
  {
  }

  lemma MulAssociates(b: int, c: int, d: int)
    ensures (b * c) * d == b * (c * d)
  {
  }

  /** `High` and `Low` are the parts of `v`. */
  lemma {:induction false} Parts(v: nat, k: nat)
    ensures v == Pow2(k) * High(v, k) + Low(v, k)
  {
    if k > 0 {
      Parts(v / 2, k - 1);
      MulAssociates(2, Pow2(k - 1), High(v, k));
    }
  }

  /** They are the only such parts. */
  lemma {:induction false} PartsUnique(v: nat, k: nat, q: nat, r: nat)
    requires v == Pow2(k) * q + r && r < Pow2(k)
    ensures High(v, k) == q && Low(v, k) == r
  {
    if k > 0 {
      MulAssociates(2, Pow2(k - 1), q);
      PartsUnique(v / 2, k - 1, q, r / 2);
    }
  }

  lemma WithinBlock(v: nat, k: nat, off: nat)
    requires Low(v, k) + off < Pow2(k)
    ensures High(v + off, k) == High(v, k)
  {
    Parts(v, k);
    PartsUnique(v + off, k, High(v, k), Low(v, k) + off);
  }

  /** The next block starts where the rest of this one ends. */
  lemma NextBlock(v: nat, k: nat)
    ensures High(v + (Pow2(k) - Low(v, k)), k) == High(v, k) + 1
  {
    Parts(v, k);
    MulDistributes(Pow2(k), High(v, k), 1);
    PartsUnique(v + (Pow2(k) - Low(v, k)), k, High(v, k) + 1, 0);
  }

  lemma MaskedParts(v: nat, k: nat)
    ensures High(Masked(v, k), k) == High(v, k) && Low(Masked(v, k), k) == 0
  {
    Parts(v, k);
    PartsUnique(Masked(v, k), k, High(v, k), 0);
  }

  lemma MultipleLow(k: nat, q: nat)
    ensures Low(Pow2(k) * q, k) == 0
  {
    PartsUnique(Pow2(k) * q, k, q, 0);
  }

  lemma LowOfZero(k: nat)
    ensures Low(0, k) == 0 && High(0, k) == 0
  {
  }

  /** A number below 2^n lies in a block that ends by 2^n. */
  lemma {:induction false} BlockEnds(v: nat, k: nat, n: nat)
    requires k <= n && v < Pow2(n)
    ensures v - Low(v, k) + Pow2(k) <= Pow2(n)
    ensures High(v, k) < Pow2(n - k)
  {
    if k > 0 {
      BlockEnds(v / 2, k - 1, n - 1);
    }
  }

  lemma Halves(x: nat, bit: nat)
    requires bit < 2
    ensures (2 * x + bit) / 2 == x && (2 * x + bit) % 2 == bit
  {
  }

  /** The low bits of the low bits. */
  lemma {:induction false} LowLow(v: nat, k: nat, n: nat)
    requires k <= n
    ensures Low(Low(v, n), k) == Low(v, k)
  {
    if k > 0 {
      LowLow(v / 2, k - 1, n - 1);
      Halves(Low(v / 2, n - 1), v % 2);
    }
  }

  lemma {:induction false} Pow2Split(k: nat, n: nat)
    requires k <= n
    ensures Pow2(n) == Pow2(k) * Pow2(n - k)
  {
    if k < n {
      Pow2Split(k, n - 1);
      MulAssociates(Pow2(k), 2, Pow2(n - 1 - k));
    }
  }

  lemma {:induction false} Pow2Monotone(a: nat, b: nat)
    requires a <= b
    ensures Pow2(a) <= Pow2(b)
  {
    if a < b {
      Pow2Monotone(a, b - 1);
    }
  }

  lemma Pow2Values()
    ensures Pow2(17) == 131072 && Pow2(24) == 0x100_0000 && Pow2(31) == 0x8000_0000 && Pow2(32) == 0x1_0000_0000
  {
    assert Pow2(8) == 256;
    assert Pow2(16) == 65536;
    assert Pow2(24) == 0x100_0000;
  }

  /** The logarithm is monotone where it matters: at powers of two. */
  lemma CeilLog2AtMost(n: nat, k: nat)
    requires n > 0
    ensures CeilLog2(n) <= k <==> n <= Pow2(k)
  {
  }

  lemma {:induction false} CeilLog2OfPow2(k: nat)
    ensures CeilLog2(Pow2(k)) == k
  {
    if k > 0 {
      CeilLog2OfPow2(k - 1);
      assert (Pow2(k) + 1) / 2 == Pow2(k - 1);
    }
  }

  // ------------------------------------------------------- remainders modulo n

  /** `x % n`, by subtraction. */
  function Rem(x: nat, n: nat): (r: nat)
    requires n > 0
    ensures r < n && r <= x
  {
    if x < n then x else Rem(x - n, n)
  }

  lemma FarMultiple(n: int, d: int)
    requires n >= 0
    ensures d >= 1 ==> n * d >= n
    ensures d <= -1 ==> n * d <= -n
  {
  }

  lemma RemainderUnique(n: int, q: int, r: int, q': int, r': int)
    requires 0 <= r < n && 0 <= r' < n
    requires n * q + r == n * q' + r'
    ensures r == r'
  {
    assert n * (q - q') == n * q - n * q';
    FarMultiple(n, q - q');
  }

  lemma ModMinus(x: nat, n: nat)
    requires x >= n > 0
    ensures (x - n) % n == x % n
  {
    var q := x / n;
    assert n * (q - 1) == n * q - n;
    RemainderUnique(n, q - 1, x % n, (x - n) / n, (x - n) % n);
  }

  lemma {:induction false} RemIsMod(x: nat, n: nat)
    requires n > 0
    ensures Rem(x, n) == x % n
  {
    if x >= n {
      RemIsMod(x - n, n);
      ModMinus(x, n);
    } else {
      assert n * 0 + x == n * (x / n) + x % n;
      RemainderUnique(n, 0, x, x / n, x % n);
    }
  }

  /** Less than `n` apart, only equal numbers have equal remainders. */
  lemma {:induction false} RemDistinct(n: nat, x: nat, y: nat)
    requires n > 0 && x <= y < x + n && Rem(x, n) == Rem(y, n)
    ensures x == y
  {
    if x >= n {
      RemDistinct(n, x - n, y - n);
    }
  }

  lemma OctetMinus(x: nat, m: nat)
    requires x >= 256 * m
    ensures (x - 256 * m) % 256 == x % 256
  {
  }

  /** Reducing modulo a multiple of 256 keeps the last octet. */
  lemma {:induction false} OctetKept(x: nat, m: nat)
    requires m > 0
    ensures Rem(x, 256 * m) % 256 == x % 256
  {
    if x >= 256 * m {
      OctetKept(x - 256 * m, m);
      OctetMinus(x, m);
    }
  }

  // ------------------------------------------------- counting the end octets

  predicate EndOctet(x: nat) {
    x % 256 == 0 || x % 256 == 255
  }

  /** How many numbers below `n` end in 0 or 255. */
  function EndOctets(n: nat): nat {
    if n == 0 then 0 else EndOctets(n - 1) + if EndOctet(n - 1) then 1 else 0
  }

  lemma Quotient(q: nat, t: nat)
    ensures (256 * q + t) / 256 == q + t / 256 && (256 * q + t) % 256 == t % 256
  {
    assert 256 * q + t == 256 * (q + t / 256) + t % 256;
  }

  lemma {:induction false} EndOctetsOf(q: nat, r: nat)
    requires r < 256
    ensures EndOctets(256 * q + r) == 2 * q + if r > 0 then 1 else 0
    decreases q, r
  {
    if r > 0 {
      EndOctetsOf(q, r - 1);
      Quotient(q, r - 1);
    } else if q > 0 {
      EndOctetsOf(q - 1, 255);
      Quotient(q - 1, 255);
    }
  }

  /** 1024 further on there are eight more. */
  lemma EndOctetsOf1024(n: nat)
    ensures EndOctets(n + 1024) == EndOctets(n) + 8
  {
    EndOctetsOf(n / 256, n % 256);
    EndOctetsOf(n / 256 + 4, n % 256);
  }

  predicate Below(a: nat, n: nat) {
    a < n
  }

  function Range(n: nat): set<nat> {
    set a: nat | a < n && Below(a, n)
  }

  lemma {:induction false} CountBelow(n: nat)
    ensures |Range(n)| == n
  {
    if n == 0 {
      assert Range(n) == {};
    } else {
      CountBelow(n - 1);
      assert Range(n) == Range(n - 1) + {n - 1};
    }
  }

  ghost predicate InjectiveOn(f: nat -> int, s: set<nat>) {
    forall x, y :: x in s && y in s && f(x) == f(y) ==> x == y
  }

  /** Pigeonhole: what an injection puts into `t` bounds it from below. */
  lemma {:induction false} ImageFits(f: nat -> int, s: set<nat>, t: set<int>)
    requires InjectiveOn(f, s) && forall x :: x in s ==> f(x) in t
    ensures |s| <= |t|
  {
    if s != {} {
      var x :| x in s;
      ImageFits(f, s - {x}, t - {f(x)});
    }
  }
}
