/** When allocation fails.  The engine probes at most 1024 addresses; the lemmas below
    say how many fakes must be held before it gives up, for every pool size, and for
    which sizes the bound one would expect does not hold. */
module Exhaustion {
  import opened Address
  import opened Blocks
  import opened Geometry
  import Sets

  // --------------------------------------------------------- distinct candidates

  lemma AddressDistinct(g: Geometry, isV6: bool, p: Uint32, q: Uint32)
    requires AddressAt(g, isV6, p) == AddressAt(g, isV6, q)
    ensures p == q
  {
  }

  lemma CandidateDistinct(g: Geometry, isV6: bool, from: Uint32, x: Uint32, y: Uint32)
    requires g.size4 > 0 && g.size6 > 0 && x <= y < Window(g, isV6) && from + y < POW32
    requires Candidate(g, isV6, from, x) == Candidate(g, isV6, from, y)
    ensures x == y
  {
    var n := Size(g, isV6);
    AddressDistinct(g, isV6, ProbeOffset(n, from, x), ProbeOffset(n, from, y));
    RemDistinct(n, from + x, from + y);
  }

  ghost predicate Distinct(g: Geometry, isV6: bool, from: Uint32, usable: set<nat>)
    requires g.size4 > 0 && g.size6 > 0 && forall a :: a in usable ==> a < Window(g, isV6)
  {
    forall x, y :: x in usable && y in usable && Candidate(g, isV6, from, x) == Candidate(g, isV6, from, y) ==> x == y
  }

  lemma NoWrapDistinct(g: Geometry, isV6: bool, from: Uint32, usable: set<nat>)
    requires g.size4 > 0 && g.size6 > 0 && from + Window(g, isV6) <= POW32
    requires forall a :: a in usable ==> a < Window(g, isV6)
    ensures Distinct(g, isV6, from, usable)
  {
    forall x, y | x in usable && y in usable && Candidate(g, isV6, from, x) == Candidate(g, isV6, from, y) ensures x == y {
      if x <= y { CandidateDistinct(g, isV6, from, x, y); } else { CandidateDistinct(g, isV6, from, y, x); }
    }
  }

  /** A probe that fails bounds the number of fakes held from below by the attempts
      with a usable address, as long as these addresses differ. */
  lemma FailureFillsWindow(g: Geometry, held: set<IPKey>, isV6: bool, from: Uint32, usable: set<nat>)
    requires g.size4 > 0 && g.size6 > 0 && Probe(g, held, isV6, from, 0).None?
    requires forall a :: a in usable ==> a < Window(g, isV6) && Usable(g, isV6, from, a)
    requires Distinct(g, isV6, from, usable)
    ensures |held| >= |usable|
  {
    ProbeExact(g, held, isV6, from, 0);
    var f := (a: nat) => if a < Window(g, isV6) then Candidate(g, isV6, from, a) else 0;
    forall a | a in usable ensures f(a) in held {
      assert Tried(g, isV6, from, 0, a);
    }
    ImageFits(f, usable, held);
  }

  /** A set of held fakes that covers the natural fake and all usable candidates makes
      the allocation fail. */
  lemma CoveredFails(g: Geometry, h: Hashing, held: set<IPKey>, realIP: IPKey, isV6: bool)
    requires g.size4 > 0 && g.size6 > 0 && Natural(g, h, realIP, isV6) in held
    requires var from := NaturalOffset(g, h, realIP, isV6);
             forall a :: Tried(g, isV6, from, 0, a) ==> Candidate(g, isV6, from, a) in held
    ensures Choose(g, h, held, realIP, isV6).None?
  {
    ProbeExact(g, held, isV6, NaturalOffset(g, h, realIP, isV6), 0);
  }

  // ------------------------------------------------------------------------ IPv6

  lemma NaturalOffset6(g: Geometry, h: Hashing, realIP: IPKey)
    requires WellFormed(g)
    ensures NaturalOffset(g, h, realIP, true) == HashOffset(g, h, realIP, true)
  {
    OffsetInNet6(g, HashOffset(g, h, realIP, true));
  }

  /** An IPv6 allocation fails only when the whole window is held. */
  lemma ProbeComplete6(g: Geometry, h: Hashing, held: set<IPKey>, realIP: IPKey)
    requires WellFormed(g) && g.size6 <= POW32 - MAX_ATTEMPTS + 1
    requires Choose(g, h, held, realIP, true).None?
    ensures |held| >= Window(g, true)
  {
    var from := NaturalOffset(g, h, realIP, true);
    NaturalOffset6(g, h, realIP);
    CountBelow(Window(g, true));
    NoWrapDistinct(g, true, from, Range(Window(g, true)));
    FailureFillsWindow(g, held, true, from, Range(Window(g, true)));
  }

  /** In a larger pool the 32-bit sum wraps: from the last offset, two attempts try the
      first address. */
  lemma CandidateRepeats(g: Geometry, isV6: bool)
    requires g.size4 > 0 && g.size6 > 0 && Size(g, isV6) > POW32 - MAX_ATTEMPTS + 1
    ensures var from := Size(g, isV6) - 1;
            && 1 < POW32 - from < Window(g, isV6)
            && Candidate(g, isV6, from, 1) == Candidate(g, isV6, from, POW32 - from)
  {
  }

  lemma ImageRepeats(f: nat -> int, s: set<nat>, x: nat, y: nat)
    requires x in s && y in s && x != y && f(x) == f(y)
    ensures |set a | a in s :: f(a)| < |s|
  {
    var t := s - {y};
    ImageSmaller(f, t);
    assert (set a | a in s :: f(a)) == set a | a in t :: f(a);
  }

  lemma {:induction false} ImageSmaller(f: nat -> int, s: set<nat>)
    ensures |set a | a in s :: f(a)| <= |s|
  {
    if s == {} {
      assert (set a | a in s :: f(a)) == {};
    } else {
      var x :| x in s;
      var t := s - {x};
      ImageSmaller(f, t);
      assert (set a | a in s :: f(a)) == (set a | a in t :: f(a)) + {f(x)};
    }
  }

  /** What holding every usable candidate of a probe takes. */
  function Tries(g: Geometry, isV6: bool, from: Uint32): set<IPKey>
    requires g.size4 > 0 && g.size6 > 0
  {
    set a: nat | a < Window(g, isV6) && Tried(g, isV6, from, 0, a) :: Candidate(g, isV6, from, a)
  }

  lemma RepeatShrinks(g: Geometry, from: Uint32, x: nat, y: nat)
    requires g.size4 > 0 && g.size6 > 0 && x < y < Window(g, true)
    requires Candidate(g, true, from, x) == Candidate(g, true, from, y)
    ensures |Tries(g, true, from)| < Window(g, true)
  {
    var w := Window(g, true);
    var f := (a: nat) => if a < w then Candidate(g, true, from, a) else 0;
    CountBelow(w);
    ImageRepeats(f, Range(w), x, y);
    var image := set a | a in Range(w) :: f(a);
    forall k | k in Tries(g, true, from) ensures k in image {
      var a: nat :| a < w && Tried(g, true, from, 0, a) && k == Candidate(g, true, from, a);
      assert a in Range(w) && f(a) == k;
    }
    Sets.Fewer(Tries(g, true, from), image);
  }

  /** The bound holds for every hash and every set of held fakes. */
  ghost predicate Complete(g: Geometry, isV6: bool, bound: nat)
    requires g.size4 > 0 && g.size6 > 0
  {
    forall h: Hashing, held: set<IPKey>, r: IPKey :: Choose(g, h, held, r, isV6).None? ==> |held| >= bound
  }

  /** IPv6 allocation fails only with the whole window held if and only if the pool has
      at most 2^32 - 1023 addresses. */
  lemma ProbeComplete6Iff(g: Geometry)
    requires WellFormed(g)
    ensures Complete(g, true, Window(g, true)) <==> g.size6 <= POW32 - MAX_ATTEMPTS + 1
  {
    if g.size6 <= POW32 - MAX_ATTEMPTS + 1 {
      forall h: Hashing, held: set<IPKey>, r: IPKey | Choose(g, h, held, r, true).None? ensures |held| >= Window(g, true) {
        ProbeComplete6(g, h, held, r);
      }
    } else {
      var from := g.size6 - 1;
      var h, held := ConstantHash(from), Tries(g, true, from);
      NaturalOffset6(g, h, 0);
      assert Tried(g, true, from, 0, 0) && Candidate(g, true, from, 0) == Natural(g, h, 0, true);
      CoveredFails(g, h, held, 0, true);
      CandidateRepeats(g, true);
      RepeatShrinks(g, from, 1, POW32 - from);
    }
  }

  // ------------------------------------------------------------------------ IPv4

  lemma SameOctet(start: Uint32, off: Uint32)
    requires start % 256 == 0
    ensures Plus32(start, off) % 256 == off % 256
  {
  }

  lemma LargePoolMask(size: Uint32)
    requires size >= MAX_ATTEMPTS
    ensures CeilLog2(size) >= 8 && Pow2(8) == 256
  {
    CeilLog2AtMost(size, 8);
  }

  lemma LowZeroBelow(v: nat, j: nat, k: nat)
    requires j <= k && Low(v, k) == 0
    ensures Low(v, j) == 0
  {
    LowLow(v, j, k);
    LowOfZero(j);
  }

  lemma AlignedOctet(v: nat, j: nat, k: nat)
    requires j <= k && Low(v, k) == 0 && Pow2(j) == 256
    ensures v % 256 == 0
  {
    LowZeroBelow(v, j, k);
    Parts(v, j);
    Quotient(High(v, j), 0);
  }

  /** The starts the constructor produces are whole octets for large pools. */
  lemma StartIsWholeOctet(g: Geometry)
    requires WellFormed(g) && g.size4 >= MAX_ATTEMPTS
    ensures g.start4 % 256 == 0
  {
    if g.start4 != FALLBACK_START {
      LargePoolMask(g.size4);
      AlignedOctet(g.start4, 8, CeilLog2(g.size4));
    }
  }

  /** Nudging the address is nudging the offset. */
  lemma NaturalOffset4(g: Geometry, h: Hashing, realIP: IPKey)
    requires g.size4 > 0 && g.size6 > 0 && g.start4 % 256 == 0
    ensures var off := HashOffset(g, h, realIP, false);
            && NaturalOffset(g, h, realIP, false) == Nudge(off)
            && Natural(g, h, realIP, false) == V4Key(Plus32(g.start4, Nudge(off)))
  {
    var off := HashOffset(g, h, realIP, false);
    SameOctet(g.start4, off);
  }

  /** The attempts below `n` whose offset ends in neither 0 nor 255. */
  function Open(size: Uint32, from: Uint32, n: nat): set<nat>
    requires size > 0 && n <= MAX_ATTEMPTS
  {
    set a: nat | a < n && OpenOffset(size, from, a)
  }

  predicate OpenOffset(size: Uint32, from: Uint32, a: nat)
    requires size > 0
  {
    a < MAX_ATTEMPTS && !EndOctet(ProbeOffset(size, from, a))
  }

  lemma OpenUsable(g: Geometry, from: Uint32, a: nat)
    requires g.size4 > 0 && g.start4 % 256 == 0 && a < MAX_ATTEMPTS
    ensures Usable(g, false, from, a) <==> OpenOffset(g.size4, from, a)
  {
    SameOctet(g.start4, ProbeOffset(g.size4, from, a));
  }

  lemma OpenStep(size: Uint32, from: Uint32, n: nat)
    requires size > 0 && n < MAX_ATTEMPTS
    ensures |Open(size, from, n + 1)| == |Open(size, from, n)| + if OpenOffset(size, from, n) then 1 else 0
  {
    var s := Open(size, from, n);
    assert n !in s;
    assert Open(size, from, n + 1) == if OpenOffset(size, from, n) then s + {n} else s;
  }

  lemma OffsetAt(size: Uint32, from: Uint32, a: nat)
    requires MAX_ATTEMPTS <= size && from <= size && a < MAX_ATTEMPTS && from + a < POW32
    ensures ProbeOffset(size, from, a) == if from + a < size then from + a else from + a - size
  {
    if from + a >= size { assert Rem(from + a - size, size) == from + a - size; }
  }

  /** Up to the end of the pool, and on from its first address. */
  lemma {:induction false} OpenBelow(size: Uint32, from: Uint32, n: nat)
    requires MAX_ATTEMPTS <= size && from <= size && n <= MAX_ATTEMPTS && from + n <= POW32
    ensures |Open(size, from, n)| == n + EndOctets(from) -
              if from + n <= size then EndOctets(from + n) else EndOctets(from + n - size) + EndOctets(size)
  {
    if n == 0 {
      assert Open(size, from, 0) == {};
    } else {
      OpenBelow(size, from, n - 1);
      OpenStep(size, from, n - 1);
      OffsetAt(size, from, n - 1);
    }
  }

  lemma SumOctets(q: nat, r: nat, p: nat, t: nat)
    requires r < 256 && t < 256
    ensures var x, y := 256 * q + r, 256 * p + t;
            EndOctets(x) + EndOctets(y) == EndOctets(x + y) +
              if r == 0 || t == 0 || r + t == 256 then 0 else if r + t < 256 then 1 else -1
  {
    EndOctetsOf(q, r);
    EndOctetsOf(p, t);
    if r + t < 256 {
      assert 256 * q + r + (256 * p + t) == 256 * (q + p) + (r + t);
      EndOctetsOf(q + p, r + t);
    } else {
      assert 256 * q + r + (256 * p + t) == 256 * (q + p + 1) + (r + t - 256);
      EndOctetsOf(q + p + 1, r + t - 256);
    }
  }

  /** Where the pool ends within the window, at most one more is skipped, and none if the
      size is regular. */
  lemma EndOctetsSum(x: nat, y: nat)
    ensures EndOctets(x) + EndOctets(y) <= EndOctets(x + y) + 1
    ensures Regular(x) && (x + y) % 256 != 255 ==> EndOctets(x) + EndOctets(y) <= EndOctets(x + y)
    ensures !Regular(x) && y == 1 ==> EndOctets(x) + EndOctets(y) == EndOctets(x + y) + 1
  {
    var q, r, p, t := x / 256, x % 256, y / 256, y % 256;
    assert x == 256 * q + r && y == 256 * p + t;
    SumOctets(q, r, p, t);
    if r + t < 256 {
      assert x + y == 256 * (q + p) + (r + t);
      Quotient(q + p, r + t);
    }
  }

  /** The sizes for which every window has at most eight skipped addresses. */
  predicate Regular(size: nat) {
    size % 256 == 0 || size % 256 == 254 || size % 256 == 255
  }

  lemma OpenInWindow(size: Uint32, from: Uint32)
    requires MAX_ATTEMPTS <= size && from <= size && from + MAX_ATTEMPTS <= POW32 && !EndOctet(from)
    ensures |Open(size, from, MAX_ATTEMPTS)| >= 1015
    ensures Regular(size) ==> |Open(size, from, MAX_ATTEMPTS)| >= 1016
  {
    OpenBelow(size, from, MAX_ATTEMPTS);
    EndOctetsOf1024(from);
    if from + MAX_ATTEMPTS > size {
      EndOctetsSum(size, from + MAX_ATTEMPTS - size);
      Quotient(4, from);
    }
  }

  lemma NudgeNotEnd(off: Uint32)
    ensures !EndOctet(Nudge(off))
  {
  }

  lemma UsableSet(g: Geometry, from: Uint32)
    requires g.size4 >= MAX_ATTEMPTS && g.start4 % 256 == 0
    ensures forall a :: a in Open(g.size4, from, MAX_ATTEMPTS) ==> a < Window(g, false) && Usable(g, false, from, a)
  {
    forall a | a in Open(g.size4, from, MAX_ATTEMPTS) ensures Usable(g, false, from, a) {
      OpenUsable(g, from, a);
    }
  }

  /** An IPv4 allocation from a pool of at least 1024 addresses fails only when at least
      1015 fakes are held, and 1016 when the size is regular. */
  lemma ProbeComplete4(g: Geometry, h: Hashing, held: set<IPKey>, realIP: IPKey)
    requires WellFormed(g) && MAX_ATTEMPTS <= g.size4 <= POW32 - MAX_ATTEMPTS
    requires Choose(g, h, held, realIP, false).None?
    ensures |held| >= 1015 && (Regular(g.size4) ==> |held| >= 1016)
  {
    var from, open := NaturalOffset(g, h, realIP, false), Open(g.size4, NaturalOffset(g, h, realIP, false), MAX_ATTEMPTS);
    StartIsWholeOctet(g);
    NaturalOffset4(g, h, realIP);
    NudgeNotEnd(HashOffset(g, h, realIP, false));
    OpenInWindow(g.size4, from);
    UsableSet(g, from);
    NoWrapDistinct(g, false, from, open);
    FailureFillsWindow(g, held, false, from, open);
  }

  /** Holding every usable candidate takes no more fakes than there are open attempts. */
  lemma TriesFit(g: Geometry, from: Uint32)
    requires g.size4 >= MAX_ATTEMPTS && g.size6 > 0 && g.start4 % 256 == 0
    ensures |Tries(g, false, from)| <= |Open(g.size4, from, MAX_ATTEMPTS)|
  {
    var open := Open(g.size4, from, MAX_ATTEMPTS);
    var f := (a: nat) => if a < MAX_ATTEMPTS then Candidate(g, false, from, a) else 0;
    ImageSmaller(f, open);
    var image := set a | a in open :: f(a);
    forall k | k in Tries(g, false, from) ensures k in image {
      var a: nat :| a < Window(g, false) && Tried(g, false, from, 0, a) && k == Candidate(g, false, from, a);
      OpenUsable(g, from, a);
      assert a in open && f(a) == k;
    }
    Sets.Fewer(Tries(g, false, from), image);
  }

  /** A hash that sends a real to `from`: its natural fake is the first candidate. */
  lemma TriesFail(g: Geometry, from: Uint32, held: set<IPKey>)
    requires g.size4 >= MAX_ATTEMPTS && g.size6 > 0 && g.start4 % 256 == 0 && from < g.size4 && !EndOctet(from)
    requires forall a :: Tried(g, false, from, 0, a) ==> Candidate(g, false, from, a) in held
    ensures Choose(g, ConstantHash(from), held, 0, false).None?
  {
    var h := ConstantHash(from);
    NaturalOffset4(g, h, 0);
    assert HashOffset(g, h, 0, false) == from == Nudge(from);
    OpenUsable(g, from, 0);
    assert Tried(g, false, from, 0, 0) && Candidate(g, false, from, 0) == Natural(g, h, 0, false);
    CoveredFails(g, h, held, 0, false);
  }

  /** When the size is not regular, one window has nine skipped addresses. */
  lemma IrregularFails(g: Geometry)
    requires WellFormed(g) && g.size4 >= MAX_ATTEMPTS && !Regular(g.size4)
    ensures !Complete(g, false, 1016)
  {
    var from := g.size4 - MAX_ATTEMPTS + 1;
    StartIsWholeOctet(g);
    NotEnd(g.size4);
    OpenBelow(g.size4, from, MAX_ATTEMPTS);
    EndOctetsOf1024(from);
    EndOctetsSum(g.size4, 1);
    TriesFit(g, from);
    TriesFail(g, from, Tries(g, false, from));
  }

  lemma NotEnd(size: nat)
    requires size >= MAX_ATTEMPTS && !Regular(size)
    ensures !EndOctet(size - MAX_ATTEMPTS + 1)
  {
    var q, r := size / 256, size % 256;
    assert size - MAX_ATTEMPTS + 1 == 256 * (q - 4) + (r + 1);
    Quotient(q - 4, r + 1);
  }

  // -------------------------------------------- pools close to the whole IPv4 space

  /** The first of the offsets below 1021 and `from` are all that a probe from the end
      of such a pool tries. */
  lemma TopOffset(size: Uint32, from: Uint32, a: nat)
    requires POW32 - MAX_ATTEMPTS < size < POW32 - 1 && a < MAX_ATTEMPTS && POW32 - size <= 1021
    requires from == size - 1 || (from == size - 2 && EndOctet(size - 1))
    ensures var o := ProbeOffset(size, from, a); o == from || EndOctet(o) || o < 1021
  {
    if from + a >= POW32 {
      assert Rem(from + a - POW32, size) == from + a - POW32;
    } else if from + a >= size {
      assert Rem(from + a - size, size) == from + a - size;
    }
  }

  function LowAddress(g: Geometry, a: nat): IPKey {
    if a < MAX_ATTEMPTS then AddressAt(g, false, a) else 0
  }

  function LowAddresses(g: Geometry): set<IPKey>
    requires g.size4 >= MAX_ATTEMPTS
  {
    set a | a in Open(g.size4, 0, 1021) :: LowAddress(g, a)
  }

  lemma OpenCount(size: Uint32, q: nat, r: nat)
    requires 256 * q + r <= MAX_ATTEMPTS <= size && r < 256
    ensures |Open(size, 0, 256 * q + r)| == 256 * q + r - 2 * q - if r > 0 then 1 else 0
  {
    OpenBelow(size, 0, 256 * q + r);
    EndOctetsOf(q, r);
  }

  lemma LowAddressesFew(g: Geometry)
    requires g.size4 >= MAX_ATTEMPTS
    ensures |LowAddresses(g)| <= 1014
  {
    OpenCount(g.size4, 3, 253);
    var f := (a: nat) => LowAddress(g, a);
    var image := set a | a in Open(g.size4, 0, 1021) :: f(a);
    ImageSmaller(f, Open(g.size4, 0, 1021));
    forall k | k in LowAddresses(g) ensures k in image {
      var a :| a in Open(g.size4, 0, 1021) && k == LowAddress(g, a);
      assert f(a) == k;
    }
    Sets.Fewer(LowAddresses(g), image);
  }

  lemma TopCandidate(g: Geometry, from: Uint32, a: Uint32)
    requires POW32 - MAX_ATTEMPTS < g.size4 < POW32 - 1 && POW32 - g.size4 <= 1021 && g.size6 > 0 && g.start4 % 256 == 0
    requires from == g.size4 - 1 || (from == g.size4 - 2 && EndOctet(g.size4 - 1))
    requires Tried(g, false, from, 0, a)
    ensures Candidate(g, false, from, a) == AddressAt(g, false, from) || Candidate(g, false, from, a) in LowAddresses(g)
  {
    var o := ProbeOffset(g.size4, from, a);
    OpenUsable(g, from, a);
    TopOffset(g.size4, from, a);
    if o != from {
      OffsetAt(g.size4, 0, o);
      assert o in Open(g.size4, 0, 1021);
    }
  }

  lemma TopStart(size: Uint32) returns (from: Uint32)
    requires Regular(size) && POW32 - MAX_ATTEMPTS < size < POW32 - 1
    ensures POW32 - size <= 1021 && !EndOctet(from)
    ensures from == size - 1 || (from == size - 2 && EndOctet(size - 1))
  {
    from := if size % 256 == 0 then size - 2 else size - 1;
  }

  /** There the addresses tried repeat. */
  lemma TopFails(g: Geometry)
    requires WellFormed(g) && Regular(g.size4) && POW32 - MAX_ATTEMPTS < g.size4 < POW32 - 1
    ensures !Complete(g, false, 1016)
  {
    var from := TopStart(g.size4);
    StartIsWholeOctet(g);
    var held := LowAddresses(g) + {AddressAt(g, false, from)};
    forall a: Uint32 | Tried(g, false, from, 0, a) ensures Candidate(g, false, from, a) in held {
      TopCandidate(g, from, a);
    }
    TriesFail(g, from, held);
    LowAddressesFew(g);
    assert |held| <= |LowAddresses(g)| + 1;
  }

  /** The pool of all addresses but one: past its end the first one comes twice. */
  lemma LastOffset(size: Uint32, from: Uint32, a: nat)
    requires size == POW32 - 1 && from < size && a < MAX_ATTEMPTS
    ensures ProbeOffset(size, from, a) ==
            if from + a < size then from + a else if from + a == size then 0 else from + a - size - 1
  {
    if from + a == size { assert Rem(0, size) == 0; }
  }

  lemma {:induction false} LastBelow(size: Uint32, from: Uint32, n: nat)
    requires size == POW32 - 1 && from < size && n <= MAX_ATTEMPTS
    ensures |Open(size, from, n)| == n + EndOctets(from) -
              if from + n <= size then EndOctets(from + n) else EndOctets(size) + 1 + EndOctets(from + n - size - 1)
  {
    if n == 0 {
      assert Open(size, from, 0) == {};
    } else {
      LastBelow(size, from, n - 1);
      OpenStep(size, from, n - 1);
      LastOffset(size, from, n - 1);
    }
  }

  lemma LastWindow(size: Uint32, from: Uint32)
    requires size == POW32 - 1 && from < size
    ensures |Open(size, from, MAX_ATTEMPTS)| == 1016
  {
    LastBelow(size, from, MAX_ATTEMPTS);
    EndOctetsOf1024(from);
    if from + MAX_ATTEMPTS > size {
      var rest := from + MAX_ATTEMPTS - size - 1;
      SumOctets((size + 1) / 256, 0, rest / 256, rest % 256);
      assert EndOctets(size + 1) == EndOctets(size) + 1;
    }
  }

  lemma LastDistinct(g: Geometry, from: Uint32)
    requires g.size4 == POW32 - 1 && g.size6 > 0 && from < g.size4
    ensures Distinct(g, false, from, Open(g.size4, from, MAX_ATTEMPTS))
  {
    var open := Open(g.size4, from, MAX_ATTEMPTS);
    forall x, y | x in open && y in open && Candidate(g, false, from, x) == Candidate(g, false, from, y) ensures x == y {
      AddressDistinct(g, false, ProbeOffset(g.size4, from, x), ProbeOffset(g.size4, from, y));
      LastOffset(g.size4, from, x);
      LastOffset(g.size4, from, y);
    }
  }

  lemma LastComplete(g: Geometry, h: Hashing, held: set<IPKey>, realIP: IPKey)
    requires WellFormed(g) && g.size4 == POW32 - 1 && Choose(g, h, held, realIP, false).None?
    ensures |held| >= 1016
  {
    var from := NaturalOffset(g, h, realIP, false);
    StartIsWholeOctet(g);
    NaturalOffset4(g, h, realIP);
    LastWindow(g.size4, from);
    LastDistinct(g, from);
    UsableSet(g, from);
    FailureFillsWindow(g, held, false, from, Open(g.size4, from, MAX_ATTEMPTS));
  }

  /** For which pools of at least 1024 addresses IPv4 allocation fails only with 1016
      fakes held. */
  lemma ProbeComplete4Iff(g: Geometry)
    requires WellFormed(g) && g.size4 >= MAX_ATTEMPTS
    ensures Complete(g, false, 1016) <==>
            (Regular(g.size4) && g.size4 <= POW32 - MAX_ATTEMPTS) || g.size4 == POW32 - 1
  {
    if !Regular(g.size4) {
      IrregularFails(g);
    } else if POW32 - MAX_ATTEMPTS < g.size4 < POW32 - 1 {
      TopFails(g);
    } else {
      forall h: Hashing, held: set<IPKey>, r: IPKey | Choose(g, h, held, r, false).None? ensures |held| >= 1016 {
        if g.size4 == POW32 - 1 { LastComplete(g, h, held, r); } else { ProbeComplete4(g, h, held, r); }
      }
    }
  }

  // ----------------------------------------------------------------- small pools

  /** The addresses of the pool that may be given out. */
  function PoolAddresses(g: Geometry, isV6: bool): set<IPKey> {
    set off: nat | off < Size(g, isV6) && Offered(g, isV6, off) :: AddressAt(g, isV6, off)
  }

  predicate Offered(g: Geometry, isV6: bool, off: nat) {
    off < POW32 && (isV6 || !Skipped(Plus32(g.start4, off)))
  }

  /** The natural offset is the hashed one, or next to it. */
  lemma NaturalOffsetNear(g: Geometry, h: Hashing, realIP: IPKey, isV6: bool)
    requires WellFormed(g) && Size(g, isV6) > 1
    ensures NaturalOffset(g, h, realIP, isV6) <= Size(g, isV6)
  {
    if isV6 {
      NaturalOffset6(g, h, realIP);
    } else {
      StartIsEven(g);
    }
  }

  lemma StartIsEven(g: Geometry)
    requires WellFormed(g) && g.size4 > 1
    ensures g.start4 % 2 == 0
  {
    if g.start4 != FALLBACK_START { LowZeroBelow(g.start4, 1, CeilLog2(g.size4)); }
  }

  /** A window of the size of the pool tries every address. */
  lemma WindowReaches(size: Uint32, from: Uint32, o: nat) returns (a: nat)
    requires 0 < size <= MAX_ATTEMPTS && o < size && (size == 1 || from <= size)
    ensures a < size && ProbeOffset(size, from, a) == o
  {
    if size == 1 {
      a := 0;
    } else if from <= o {
      a := o - from;
    } else {
      a := o + size - from;
      assert Rem(o, size) == o;
    }
  }

  /** In a pool of at most 1024 addresses allocation fails if and only if the natural fake
      and every address that may be given out are held. */
  lemma SmallPoolFailsIff(g: Geometry, h: Hashing, held: set<IPKey>, realIP: IPKey, isV6: bool)
    requires WellFormed(g) && Size(g, isV6) <= MAX_ATTEMPTS
    ensures Choose(g, h, held, realIP, isV6).None? <==>
            Natural(g, h, realIP, isV6) in held && forall k: IPKey :: k in PoolAddresses(g, isV6) ==> k in held
  {
    var size, from := Size(g, isV6), NaturalOffset(g, h, realIP, isV6);
    ProbeExact(g, held, isV6, from, 0);
    if size > 1 { NaturalOffsetNear(g, h, realIP, isV6); }
    if Choose(g, h, held, realIP, isV6).None? {
      forall k: IPKey | k in PoolAddresses(g, isV6) ensures k in held {
        var o: nat :| o < size && Offered(g, isV6, o) && k == AddressAt(g, isV6, o);
        var a := WindowReaches(size, from, o);
        assert Tried(g, isV6, from, 0, a) && Candidate(g, isV6, from, a) == k;
      }
    }
    if Natural(g, h, realIP, isV6) in held && forall k: IPKey :: k in PoolAddresses(g, isV6) ==> k in held {
      forall a | Tried(g, isV6, from, 0, a) ensures Candidate(g, isV6, from, a) in held {
        assert Offered(g, isV6, ProbeOffset(size, from, a));
      }
    }
  }
}
