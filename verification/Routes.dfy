/** Compiling address lists: aggregation to a bounded number of prefixes by
    widening, and exact subtraction of excludes and denies afterwards. */
module Routes {
  import opened PrefixSets
  import opened Blocks

  // ------------------------------------------------------------- set expressions

  function PaintAll(t: Trie, ps: seq<Bits>, leaf: Trie): Trie {
    if ps == [] then t else Paint(PaintAll(t, ps[..|ps| - 1], leaf), ps[|ps| - 1], leaf)
  }

  ghost predicate FitAll(ps: seq<Bits>, w: nat) {
    forall p :: p in ps ==> |p| <= w
  }

  function SetOf(inc: seq<Bits>, exc: seq<Bits>): Trie {
    PaintAll(PaintAll(Empty, inc, Full), exc, Empty)
  }

  /** `subNetsOptimized`. */
  function Subtract(inc: seq<Bits>, exc: seq<Bits>): seq<Bits> {
    Prefixes(SetOf(inc, exc))
  }

  /** `collapseIPNets`. */
  function Collapse(nets: seq<Bits>): seq<Bits> {
    Subtract(nets, [])
  }

  lemma InAnyAppend(ps: seq<Bits>, qs: seq<Bits>, a: Bits)
    ensures InAny(ps + qs, a) <==> InAny(ps, a) || InAny(qs, a)
  {
    if InAny(ps, a) {
      var p :| p in ps && p <= a;
      assert p in ps + qs;
    }
    if InAny(qs, a) {
      var p :| p in qs && p <= a;
      assert p in ps + qs;
    }
  }

  lemma {:induction false} PaintAllMem(t: Trie, ps: seq<Bits>, leaf: Trie, w: nat, a: Bits)
    requires Canonical(t, w) && FitAll(ps, w) && !leaf.Node? && |a| == w
    ensures Canonical(PaintAll(t, ps, leaf), w)
    ensures Mem(PaintAll(t, ps, leaf), a) <==> if InAny(ps, a) then leaf.Full? else Mem(t, a)
  {
    if ps != [] {
      var init, last := ps[..|ps| - 1], ps[|ps| - 1];
      assert ps == init + [last];
      PaintAllMem(t, init, leaf, w, a);
      PaintCanonical(PaintAll(t, init, leaf), last, leaf, w);
      PaintMem(PaintAll(t, init, leaf), last, leaf, a);
      InAnyAppend(init, [last], a);
      assert last <= a ==> last in [last];
    }
  }

  /** The set is the includes without the excludes. */
  lemma SetMeaning(inc: seq<Bits>, exc: seq<Bits>, w: nat, a: Bits)
    requires FitAll(inc, w) && FitAll(exc, w) && |a| == w
    ensures Canonical(SetOf(inc, exc), w)
    ensures Mem(SetOf(inc, exc), a) <==> InAny(inc, a) && !InAny(exc, a)
  {
    PaintAllMem(Empty, inc, Full, w, a);
    PaintAllMem(PaintAll(Empty, inc, Full), exc, Empty, w, a);
  }

  /** Subtraction is exact, and its list holds the maximal prefixes of the result. */
  lemma SubtractMeaning(inc: seq<Bits>, exc: seq<Bits>, w: nat, a: Bits)
    requires FitAll(inc, w) && FitAll(exc, w) && |a| == w
    ensures InAny(Subtract(inc, exc), a) <==> InAny(inc, a) && !InAny(exc, a)
    ensures FitAll(Subtract(inc, exc), w)
    ensures forall p :: p in Subtract(inc, exc) <==> Maximal(SetOf(inc, exc), w, p)
  {
    SetMeaning(inc, exc, w, a);
    PrefixesMeaning(SetOf(inc, exc), a);
    forall p ensures p in Subtract(inc, exc) <==> Maximal(SetOf(inc, exc), w, p) {
      PrefixesAreMaximal(SetOf(inc, exc), w, p);
    }
  }

  ghost predicate SameAddresses(ps: seq<Bits>, qs: seq<Bits>, w: nat) {
    forall a: Bits :: |a| == w ==> (InAny(ps, a) <==> InAny(qs, a))
  }

  lemma CollapseMeaning(nets: seq<Bits>, w: nat)
    requires FitAll(nets, w)
    ensures FitAll(Collapse(nets), w) && SameAddresses(Collapse(nets), nets, w)
  {
    forall a: Bits | |a| == w ensures InAny(Collapse(nets), a) <==> InAny(nets, a) {
      SubtractMeaning(nets, [], w, a);
    }
    SubtractMeaning(nets, [], w, Zeros(w));
  }

  /** Lists of the same addresses collapse to the same list. */
  lemma CollapseCanonical(ps: seq<Bits>, qs: seq<Bits>, w: nat)
    requires FitAll(ps, w) && FitAll(qs, w) && SameAddresses(ps, qs, w)
    ensures Collapse(ps) == Collapse(qs)
  {
    forall a: Bits | |a| == w ensures Mem(SetOf(ps, []), a) <==> Mem(SetOf(qs, []), a) {
      SetMeaning(ps, [], w, a);
      SetMeaning(qs, [], w, a);
    }
    SetMeaning(ps, [], w, Zeros(w));
    SetMeaning(qs, [], w, Zeros(w));
    CanonicalUnique(SetOf(ps, []), SetOf(qs, []), w);
  }

  // ------------------------------------------------------------------- widening

  function Cut(p: Bits, level: nat): Bits {
    if |p| > level then p[..level] else p
  }

  function CutAll(ps: seq<Bits>, level: nat): (r: seq<Bits>)
    ensures |r| == |ps|
  {
    seq(|ps|, i requires 0 <= i < |ps| => Cut(ps[i], level))
  }

  /** The addresses that agree on `level` bits with one of the list. */
  ghost predicate Near(ps: seq<Bits>, w: nat, level: nat, a: Bits)
    requires level <= w && |a| == w
  {
    exists b: Bits :: |b| == w && InAny(ps, b) && b[..level] == a[..level]
  }

  lemma CutFits(ps: seq<Bits>, level: nat, w: nat)
    requires FitAll(ps, w)
    ensures FitAll(CutAll(ps, level), w) && FitAll(CutAll(ps, level), if level < w then level else w)
  {
  }

  lemma CutNear(p: Bits, level: nat, w: nat, a: Bits)
    requires |p| <= w && level <= w && |a| == w
    ensures Cut(p, level) <= a <==> exists b: Bits :: |b| == w && p <= b && b[..level] == a[..level]
  {
    if Cut(p, level) <= a {
      if |p| > level {
        var b := Extend(p, w);
        assert b[..level] == p[..level] == a[..level];
      } else {
        assert a[..level] == a[..level];
      }
    }
    if b: Bits :| |b| == w && p <= b && b[..level] == a[..level] {
      if |p| > level {
        assert p[..level] == b[..level] == a[..level];
      } else {
        assert p == b[..|p|] == b[..level][..|p|] == a[..level][..|p|] == a[..|p|];
      }
    }
  }

  /** Cutting a list to a level adds exactly the addresses near it. */
  lemma CutMeaning(ps: seq<Bits>, level: nat, w: nat, a: Bits)
    requires FitAll(ps, w) && level <= w && |a| == w
    ensures InAny(CutAll(ps, level), a) <==> Near(ps, w, level, a)
  {
    var cut := CutAll(ps, level);
    if InAny(cut, a) {
      var c :| c in cut && c <= a;
      var i :| 0 <= i < |ps| && cut[i] == c;
      assert ps[i] in ps;
      CutNear(ps[i], level, w, a);
      var b: Bits :| |b| == w && ps[i] <= b && b[..level] == a[..level];
      assert InAny(ps, b);
    }
    if Near(ps, w, level, a) {
      var b: Bits :| |b| == w && InAny(ps, b) && b[..level] == a[..level];
      var p :| p in ps && p <= b;
      var i :| 0 <= i < |ps| && ps[i] == p;
      CutNear(p, level, w, a);
      assert cut[i] in cut;
    }
  }

  /** The list widened to a level. */
  function At(nets: seq<Bits>, level: nat): seq<Bits> {
    Collapse(CutAll(nets, level))
  }

  lemma AtMeaning(nets: seq<Bits>, level: nat, w: nat, a: Bits)
    requires FitAll(nets, w) && level <= w && |a| == w
    ensures FitAll(At(nets, level), w) && (InAny(At(nets, level), a) <==> Near(nets, w, level, a))
  {
    CutFits(nets, level, w);
    CollapseMeaning(CutAll(nets, level), w);
    CutMeaning(nets, level, w, a);
  }

  lemma NearWidens(nets: seq<Bits>, high: nat, low: nat, w: nat, a: Bits)
    requires FitAll(nets, w) && low <= high <= w && |a| == w && Near(nets, w, low, a)
    ensures Near(At(nets, high), w, low, a)
  {
    var b: Bits :| |b| == w && InAny(nets, b) && b[..low] == a[..low];
    assert Near(nets, w, high, b);
    AtMeaning(nets, high, w, b);
  }

  lemma NearNarrows(nets: seq<Bits>, high: nat, low: nat, w: nat, a: Bits)
    requires FitAll(nets, w) && low <= high <= w && |a| == w && Near(At(nets, high), w, low, a)
    ensures Near(nets, w, low, a)
  {
    var b: Bits :| |b| == w && InAny(At(nets, high), b) && b[..low] == a[..low];
    AtMeaning(nets, high, w, b);
    var c: Bits :| |c| == w && InAny(nets, c) && c[..high] == b[..high];
    assert c[..low] == c[..high][..low] == b[..high][..low] == a[..low];
  }

  lemma NearNear(nets: seq<Bits>, high: nat, low: nat, w: nat, a: Bits)
    requires FitAll(nets, w) && low <= high <= w && |a| == w
    ensures FitAll(At(nets, high), w)
    ensures Near(At(nets, high), w, low, a) <==> Near(nets, w, low, a)
  {
    AtMeaning(nets, high, w, a);
    if Near(nets, w, low, a) { NearWidens(nets, high, low, w, a); }
    if Near(At(nets, high), w, low, a) { NearNarrows(nets, high, low, w, a); }
  }

  /** Widening twice is widening once. */
  lemma WidenTwice(nets: seq<Bits>, high: nat, low: nat, w: nat)
    requires FitAll(nets, w) && low <= high <= w
    ensures At(At(nets, high), low) == At(nets, low)
  {
    NearNear(nets, high, low, w, Zeros(w));
    CutFits(nets, low, w);
    CutFits(At(nets, high), low, w);
    forall a: Bits | |a| == w ensures InAny(CutAll(At(nets, high), low), a) <==> InAny(CutAll(nets, low), a) {
      CutMeaning(At(nets, high), low, w, a);
      CutMeaning(nets, low, w, a);
      NearNear(nets, high, low, w, a);
    }
    CollapseCanonical(CutAll(At(nets, high), low), CutAll(nets, low), w);
  }

  lemma CutNothing(ps: seq<Bits>, level: nat)
    requires FitAll(ps, level)
    ensures CutAll(ps, level) == ps
  {
  }

  lemma CollapseIdempotent(nets: seq<Bits>, w: nat)
    requires FitAll(nets, w)
    ensures Collapse(Collapse(nets)) == Collapse(nets)
  {
    CollapseMeaning(nets, w);
    CollapseCanonical(Collapse(nets), nets, w);
  }

  /** Levels no shorter than all prefixes of the widened list change nothing. */
  lemma IdleLevels(nets: seq<Bits>, high: nat, low: nat, w: nat)
    requires FitAll(nets, w) && low <= high <= w && FitAll(At(nets, high), low)
    ensures At(nets, low) == At(nets, high)
  {
    WidenTwice(nets, high, low, w);
    CutNothing(At(nets, high), low);
    CutFits(nets, high, w);
    CollapseIdempotent(CutAll(nets, high), w);
  }

  lemma TooLong(nets: seq<Bits>, k: nat, w: nat, p: Bits)
    requires FitAll(nets, k) && k < |p| <= w && Inside(SetOf(nets, []), w, p)
    ensures Inside(SetOf(nets, []), w, p[..|p| - 1])
  {
    var a, parent := Extend(p, w), p[..|p| - 1];
    SetMeaning(nets, [], w, a);
    var q :| q in nets && q <= a;
    assert q <= parent;
    forall b: Bits | |b| == w && parent <= b ensures Mem(SetOf(nets, []), b) {
      SetMeaning(nets, [], w, b);
      assert q <= b;
    }
  }

  /** No prefix of a collapsed list is longer than the longest it was made from. */
  lemma CollapseLength(nets: seq<Bits>, k: nat, w: nat)
    requires FitAll(nets, k) && k <= w
    ensures FitAll(Collapse(nets), k)
  {
    SubtractMeaning(nets, [], w, Zeros(w));
    forall p | p in Collapse(nets) ensures |p| <= k {
      if |p| > k {
        TooLong(nets, k, w, p);
        assert false;
      }
    }
  }

  // ---------------------------------------------------------------- aggregation

  /** Every higher level exceeds the limit. */
  ghost predicate TooManyAbove(nets: seq<Bits>, limit: int, w: nat, level: nat) {
    forall l :: level < l <= w ==> |At(nets, l)| > limit
  }

  /** `res` is `nets` widened to the highest level that meets the limit, or to the
      floor when none above it does. */
  ghost predicate Aggregated(nets: seq<Bits>, limit: int, w: nat, floor: nat, res: seq<Bits>, level: nat) {
    && floor <= level <= w
    && res == At(nets, level)
    && TooManyAbove(nets, limit, w, level)
    && (|res| <= limit || level == floor)
  }

  method LongestPrefix(ps: seq<Bits>) returns (maxPrefix: int)
    ensures -1 <= maxPrefix && forall p :: p in ps ==> |p| <= maxPrefix
    ensures ps != [] ==> exists p :: p in ps && |p| == maxPrefix
  {
    maxPrefix := -1;
    ghost var best: Bits := [];
    for i := 0 to |ps|
      invariant -1 <= maxPrefix && forall p :: p in ps[..i] ==> |p| <= maxPrefix
      invariant i > 0 ==> best in ps && |best| == maxPrefix
      invariant i == 0 ==> maxPrefix == -1
    {
      assert ps[..i + 1] == ps[..i] + [ps[i]];
      if |ps[i]| > maxPrefix {
        maxPrefix := |ps[i]|;
        best := ps[i];
      }
    }
    assert ps[..|ps|] == ps;
  }

  /** Shortens the prefixes of the greatest length by one bit, to `next`. */
  method Shorten(ps: seq<Bits>, next: nat) returns (supers: seq<Bits>)
    requires FitAll(ps, next + 1)
    ensures supers == CutAll(ps, next)
  {
    supers := [];
    for i := 0 to |ps|
      invariant |supers| == i
      invariant forall j :: 0 <= j < i ==> supers[j] == Cut(ps[j], next)
    {
      assert ps[i] in ps;
      if |ps[i]| == next + 1 {
        supers := supers + [ps[i][..next]];
      } else {
        supers := supers + [ps[i]];
      }
    }
  }

  /** A list over the limit is over it at every level its prefixes fit. */
  lemma IdleTooMany(nets: seq<Bits>, limit: int, w: nat, level: nat, next: nat)
    requires FitAll(nets, w) && next <= level <= w && FitAll(At(nets, level), next + 1) && |At(nets, level)| > limit
    requires TooManyAbove(nets, limit, w, level)
    ensures TooManyAbove(nets, limit, w, next)
  {
    forall l | next < l <= w ensures |At(nets, l)| > limit {
      if l <= level { IdleLevels(nets, level, l, w); }
    }
  }

  lemma ShorterStep(nets: seq<Bits>, limit: int, w: nat, level: nat, next: nat, res: seq<Bits>)
    requires FitAll(nets, w) && next < level <= w && res == At(nets, level) && |res| > limit
    requires FitAll(res, next + 1) && TooManyAbove(nets, limit, w, level)
    ensures Collapse(CutAll(res, next)) == At(nets, next)
    ensures FitAll(At(nets, next), next) && TooManyAbove(nets, limit, w, next)
  {
    WidenTwice(nets, level, next, w);
    CutFits(nets, next, w);
    CollapseLength(CutAll(nets, next), next, w);
    IdleTooMany(nets, limit, w, level, next);
  }

  lemma FloorReached(nets: seq<Bits>, limit: int, w: nat, floor: nat, level: nat, res: seq<Bits>)
    requires FitAll(nets, w) && floor <= level <= w && res == At(nets, level) && |res| > limit && FitAll(res, floor)
    requires TooManyAbove(nets, limit, w, level)
    ensures Aggregated(nets, limit, w, floor, res, floor)
  {
    IdleTooMany(nets, limit, w, level, floor);
    IdleLevels(nets, level, floor, w);
  }

  /** One turn of the widening loop: the longest prefixes lose a bit. */
  method Turn(nets: seq<Bits>, limit: int, w: nat, res: seq<Bits>, maxPrefix: nat, ghost level: nat)
    returns (wider: seq<Bits>, next: nat)
    requires FitAll(nets, w) && level <= w && res == At(nets, level) && |res| > limit
    requires 0 < maxPrefix <= level && FitAll(res, maxPrefix) && TooManyAbove(nets, limit, w, level)
    ensures next == maxPrefix - 1 && wider == At(nets, next) && FitAll(wider, next)
    ensures TooManyAbove(nets, limit, w, next)
  {
    next := maxPrefix - 1;
    var supers := Shorten(res, next);
    ShorterStep(nets, limit, w, level, next, res);
    wider := Collapse(supers);
  }

  lemma StartLevel(nets: seq<Bits>, limit: int, w: nat)
    requires FitAll(nets, w)
    ensures Collapse(nets) == At(nets, w) && FitAll(Collapse(nets), w) && TooManyAbove(nets, limit, w, w)
  {
    CutNothing(nets, w);
    CollapseMeaning(nets, w);
  }

  /** The widening loop.  Each turn shortens the longest prefixes, so the greatest
      length falls until the limit or the floor is reached. */
  method AggregatePrefixes(nets: seq<Bits>, limit: int, w: nat, floor: nat) returns (res: seq<Bits>, ghost level: nat)
    requires FitAll(nets, w) && floor <= w
    ensures floor <= level <= w
    ensures nets == [] || limit <= 0 ==> res == nets && level == w
    ensures nets != [] && limit > 0 ==> Aggregated(nets, limit, w, floor, res, level)
    ensures limit > 0 ==> |res| <= limit || FitAll(res, floor)
  {
    level := w;
    if |nets| == 0 || limit <= 0 {
      return nets, level;
    }
    res := Collapse(nets);
    StartLevel(nets, limit, w);
    if |res| <= limit {
      return;
    }
    while |res| > limit
      invariant floor <= level <= w && res == At(nets, level) && FitAll(res, level)
      invariant TooManyAbove(nets, limit, w, level)
      decreases level
    {
      var maxPrefix := LongestPrefix(res);
      if maxPrefix <= floor {
        FloorReached(nets, limit, w, floor, level, res);
        return res, floor;
      }
      res, level := Turn(nets, limit, w, res, maxPrefix, level);
    }
  }

  /** Aggregation loses no address, adds only addresses that share the floor's bits
      with one of the list, and meets the limit unless no prefix is longer than the
      floor. */
  lemma AggregatedMeaning(nets: seq<Bits>, limit: int, w: nat, floor: nat, res: seq<Bits>, level: nat, a: Bits)
    requires FitAll(nets, w) && Aggregated(nets, limit, w, floor, res, level) && |a| == w
    ensures InAny(res, a) <==> Near(nets, w, level, a)
    ensures InAny(nets, a) ==> InAny(res, a)
    ensures InAny(res, a) ==> Near(nets, w, floor, a)
    ensures |res| <= limit || FitAll(res, floor)
    ensures FitAll(res, w)
  {
    AtMeaning(nets, level, w, a);
    if InAny(nets, a) {
      assert a[..level] == a[..level];
    }
    if InAny(res, a) {
      var b: Bits :| |b| == w && InAny(nets, b) && b[..level] == a[..level];
      assert b[..floor] == b[..level][..floor] == a[..level][..floor] == a[..floor];
    }
    CutFits(nets, level, w);
    CollapseLength(CutAll(nets, level), level, w);
  }

  /** The level is determined: no other level satisfies the description with another
      result. */
  lemma AggregatedUnique(nets: seq<Bits>, limit: int, w: nat, floor: nat,
                         r1: seq<Bits>, l1: nat, r2: seq<Bits>, l2: nat)
    requires Aggregated(nets, limit, w, floor, r1, l1) && Aggregated(nets, limit, w, floor, r2, l2)
    ensures r1 == r2
  {
  }

  // ---------------------------------------------------------------- compilation

  datatype Net = Net(isV6: bool, bits: Bits)

  function Width(isV6: bool): nat {
    if isV6 then 128 else 32
  }

  function Floor(isV6: bool): nat {
    if isV6 then 32 else 12
  }

  function MinAllowed(isV6: bool): nat {
    if isV6 then 16 else 4
  }

  predicate Admitted(n: Net, isV6: bool, safeguard: bool) {
    n.isV6 == isV6 && (safeguard ==> |n.bits| >= MinAllowed(isV6))
  }

  ghost predicate ValidNets(nets: seq<Net>) {
    forall n :: n in nets ==> |n.bits| <= Width(n.isV6)
  }

  /** An address under one of the admitted networks. */
  ghost predicate Listed(nets: seq<Net>, isV6: bool, safeguard: bool, a: Bits) {
    exists n :: n in nets && Admitted(n, isV6, safeguard) && n.bits <= a
  }

  /** The admitted networks, in order. */
  function Admit(src: seq<Net>, isV6: bool, safeguard: bool): seq<Bits> {
    if src == [] then []
    else
      var n := src[|src| - 1];
      Admit(src[..|src| - 1], isV6, safeguard) + if Admitted(n, isV6, safeguard) then [n.bits] else []
  }

  lemma {:induction false} AdmitMeaning(src: seq<Net>, isV6: bool, safeguard: bool, a: Bits)
    ensures InAny(Admit(src, isV6, safeguard), a) <==> Listed(src, isV6, safeguard, a)
  {
    if src != [] {
      var init, n := src[..|src| - 1], src[|src| - 1];
      AdmitMeaning(init, isV6, safeguard, a);
      assert src == init + [n];
      InAnyAppend(Admit(init, isV6, safeguard), if Admitted(n, isV6, safeguard) then [n.bits] else [], a);
      assert n.bits in [n.bits];
    }
  }

  lemma {:induction false} AdmitFits(src: seq<Net>, isV6: bool, safeguard: bool)
    requires ValidNets(src)
    ensures FitAll(Admit(src, isV6, safeguard), Width(isV6))
  {
    if src != [] { AdmitFits(src[..|src| - 1], isV6, safeguard); }
  }

  /** An address under a network of the family with at least `least` bits. */
  ghost predicate Covered(nets: seq<Net>, isV6: bool, least: nat, a: Bits) {
    exists n :: n in nets && n.isV6 == isV6 && |n.bits| >= least && n.bits <= a
  }

  lemma ListedIsCovered(nets: seq<Net>, isV6: bool, safeguard: bool, a: Bits)
    ensures Listed(nets, isV6, safeguard, a) <==> Covered(nets, isV6, if !safeguard then 0 else if isV6 then 16 else 4, a)
  {
  }

  /** `filterIPNets`: one family, without overly wide networks when guarded. */
  method FilterNets(src: seq<Net>, isV6: bool, safeguard: bool) returns (res: seq<Bits>)
    requires ValidNets(src)
    ensures res == Admit(src, isV6, safeguard)
    ensures FitAll(res, Width(isV6))
    ensures forall a :: InAny(res, a) <==> Covered(src, isV6, if !safeguard then 0 else if isV6 then 16 else 4, a)
  {
    res := [];
    for i := 0 to |src|
      invariant res == Admit(src[..i], isV6, safeguard)
    {
      var n := src[i];
      assert src[..i + 1][..i] == src[..i];
      if n.isV6 == isV6 && !(safeguard && |n.bits| < MinAllowed(isV6)) {
        res := res + [n.bits];
      }
    }
    assert src[..|src|] == src;
    AdmitFits(src, isV6, safeguard);
    forall a ensures InAny(res, a) <==> Covered(src, isV6, if !safeguard then 0 else if isV6 then 16 else 4, a) {
      AdmitMeaning(src, isV6, safeguard, a);
      ListedIsCovered(src, isV6, safeguard, a);
    }
  }

  /** What is routed: an address near an included one that is neither excluded nor
      denied; `level` is the aggregation's. */
  ghost predicate Routed(inc: seq<Net>, exc: seq<Net>, deny: seq<Net>, isV6: bool, level: nat, a: Bits)
    requires |a| == Width(isV6) && level <= Width(isV6)
  {
    && (exists b: Bits :: |b| == Width(isV6) && Listed(inc, isV6, true, b) && b[..level] == a[..level])
    && !Listed(exc, isV6, false, a)
    && !Listed(deny, isV6, false, a)
  }

  /** Without widening, near is in. */
  lemma NearAtFull(nets: seq<Bits>, w: nat, a: Bits)
    requires |a| == w
    ensures Near(nets, w, w, a) <==> InAny(nets, a)
  {
  }

  /** What is subtracted from: the admitted networks, widened to `level`. */
  function Widened(inc: seq<Net>, limit: int, isV6: bool, level: nat): seq<Bits> {
    var nets := Admit(inc, isV6, true);
    if nets != [] && limit > 0 then At(nets, level) else nets
  }

  function Removed(exc: seq<Net>, deny: seq<Net>, isV6: bool): seq<Bits> {
    Admit(exc, isV6, false) + Admit(deny, isV6, false)
  }

  /** The level of the aggregation: the longest within the limit, or the floor. */
  ghost predicate LevelOf(inc: seq<Net>, limit: int, isV6: bool, level: nat) {
    var nets := Admit(inc, isV6, true);
    && Floor(isV6) <= level <= Width(isV6)
    && if nets != [] && limit > 0 then Aggregated(nets, limit, Width(isV6), Floor(isV6), At(nets, level), level)
       else level == Width(isV6)
  }

  /** What the route file promises of an address, in numbers.  For IPv4: under an included
      network of at least 4 bits it is routed unless it is excluded or denied; excluded
      or denied it is not routed; routed it shares 12 bits with an address under such an
      included network, and all bits when there is no limit.  For IPv6 the numbers are
      16 and 32. */
  ghost predicate RouteKept(inc: seq<Net>, exc: seq<Net>, deny: seq<Net>, limit: int, isV6: bool, a: Bits, routed: bool)
    requires |a| == if isV6 then 128 else 32
  {
    var least, shared := if isV6 then 16 else 4, if isV6 then 32 else 12;
    && ((Covered(inc, isV6, least, a) && !Covered(exc, isV6, 0, a) && !Covered(deny, isV6, 0, a)) ==> routed)
    && (routed ==>
          && !Covered(exc, isV6, 0, a) && !Covered(deny, isV6, 0, a)
          && (exists b: Bits :: |b| == |a| && Covered(inc, isV6, least, b) && b[..shared] == a[..shared])
          && (limit <= 0 ==> Covered(inc, isV6, least, a)))
  }

  /** Despite the widening the promise holds. */
  lemma RoutedMeaning(inc: seq<Net>, exc: seq<Net>, deny: seq<Net>, limit: int, isV6: bool, level: nat, a: Bits)
    requires |a| == (if isV6 then 128 else 32) && LevelOf(inc, limit, isV6, level)
    ensures RouteKept(inc, exc, deny, limit, isV6, a, Routed(inc, exc, deny, isV6, level, a))
  {
    ListedIsCovered(inc, isV6, true, a);
    ListedIsCovered(exc, isV6, false, a);
    ListedIsCovered(deny, isV6, false, a);
    if Routed(inc, exc, deny, isV6, level, a) {
      var b: Bits :| |b| == Width(isV6) && Listed(inc, isV6, true, b) && b[..level] == a[..level];
      var k := if isV6 then 32 else 12;
      ListedIsCovered(inc, isV6, true, b);
      assert b[..k] == b[..level][..k] == a[..level][..k] == a[..k];
      assert level == |a| ==> b == b[..level] == a[..level] == a;
    }
  }

  /** The subtraction lists exactly what is routed. */
  lemma RoutesDenote(inc: seq<Net>, exc: seq<Net>, deny: seq<Net>, limit: int, isV6: bool, level: nat, a: Bits)
    requires ValidNets(inc) && ValidNets(exc) && ValidNets(deny)
    requires |a| == Width(isV6) && LevelOf(inc, limit, isV6, level)
    ensures InAny(Subtract(Widened(inc, limit, isV6, level), Removed(exc, deny, isV6)), a) <==>
            Routed(inc, exc, deny, isV6, level, a)
  {
    var w, nets, aggr := Width(isV6), Admit(inc, isV6, true), Widened(inc, limit, isV6, level);
    WidenedFits(inc, limit, isV6, level);
    AdmitFits(inc, isV6, true);
    AdmitFits(exc, isV6, false);
    AdmitFits(deny, isV6, false);
    SubtractMeaning(aggr, Removed(exc, deny, isV6), w, a);
    InAnyAppend(Admit(exc, isV6, false), Admit(deny, isV6, false), a);
    AdmitMeaning(exc, isV6, false, a);
    AdmitMeaning(deny, isV6, false, a);
    if nets != [] && limit > 0 { AtMeaning(nets, level, w, a); } else { NearAtFull(nets, w, a); }
    forall b: Bits ensures InAny(nets, b) <==> Listed(inc, isV6, true, b) {
      AdmitMeaning(inc, isV6, true, b);
    }
    assert InAny(aggr, a) <==> Near(nets, w, level, a);
  }

  /** `compileIPs` for one family. */
  method CompileFamily(inc: seq<Net>, exc: seq<Net>, deny: seq<Net>, limit: int, isV6: bool)
    returns (routes: seq<Bits>, denied: seq<Bits>, ghost level: nat)
    requires ValidNets(inc) && ValidNets(exc) && ValidNets(deny)
    ensures LevelOf(inc, limit, isV6, level)
    ensures routes == Subtract(Widened(inc, limit, isV6, level), Removed(exc, deny, isV6))
    ensures forall a: Bits :: |a| == (if isV6 then 128 else 32) ==>
              RouteKept(inc, exc, deny, limit, isV6, a, InAny(routes, a))
    ensures forall a: Bits :: |a| == (if isV6 then 128 else 32) ==> (InAny(denied, a) <==> Covered(deny, isV6, 0, a))
    ensures limit > 0 ==>
              || |Widened(inc, limit, isV6, level)| <= limit
              || FitAll(Widened(inc, limit, isV6, level), if isV6 then 32 else 12)
  {
    var incNets := FilterNets(inc, isV6, true);
    var exNets := FilterNets(exc, isV6, false);
    var dnNets := FilterNets(deny, isV6, false);
    denied := Subtract(dnNets, []);
    var exCombined := exNets + dnNets;
    var aggr: seq<Bits>;
    aggr, level := AggregatePrefixes(incNets, limit, Width(isV6), Floor(isV6));
    routes := Subtract(aggr, exCombined);
    assert aggr == Widened(inc, limit, isV6, level);
    forall a: Bits | |a| == if isV6 then 128 else 32
      ensures RouteKept(inc, exc, deny, limit, isV6, a, InAny(routes, a))
      ensures InAny(denied, a) <==> Covered(deny, isV6, 0, a)
    {
      RoutesDenote(inc, exc, deny, limit, isV6, level, a);
      RoutedMeaning(inc, exc, deny, limit, isV6, level, a);
      SubtractMeaning(dnNets, [], Width(isV6), a);
    }
  }

  // ------------------------------------------------- the limit after subtraction

  /** The set is the difference of the two sets. */
  lemma SetIsDiff(inc: seq<Bits>, exc: seq<Bits>, w: nat)
    requires FitAll(inc, w) && FitAll(exc, w)
    ensures SetOf(inc, exc) == Diff(SetOf(inc, []), SetOf(exc, []))
    ensures Canonical(SetOf(inc, []), w) && Canonical(SetOf(exc, []), w)
  {
    var t, e := SetOf(inc, []), SetOf(exc, []);
    SetMeaning(inc, exc, w, Zeros(w));
    SetMeaning(inc, [], w, Zeros(w));
    SetMeaning(exc, [], w, Zeros(w));
    DiffCanonical(t, e, w);
    forall a: Bits | |a| == w ensures Mem(SetOf(inc, exc), a) <==> Mem(Diff(t, e), a) {
      SetMeaning(inc, exc, w, a);
      SetMeaning(inc, [], w, a);
      SetMeaning(exc, [], w, a);
      DiffMem(t, e, a);
    }
    CanonicalUnique(SetOf(inc, exc), Diff(t, e), w);
  }

  /** How many prefixes a subtraction lists: for every collapsed network one, one more
      for every split on the way to an excluded prefix inside it, one less for every
      excluded prefix inside it, and none when it is excluded as a whole. */
  lemma SubtractCount(inc: seq<Bits>, exc: seq<Bits>, w: nat)
    requires FitAll(inc, w) && FitAll(exc, w)
    ensures |Subtract(inc, exc)| == PieceSum(Collapse(inc), SetOf(exc, []))
  {
    SetIsDiff(inc, exc, w);
    DiffCount(SetOf(inc, []), SetOf(exc, []), w);
  }

  lemma WidenedFits(inc: seq<Net>, limit: int, isV6: bool, level: nat)
    requires ValidNets(inc) && level <= Width(isV6)
    ensures FitAll(Widened(inc, limit, isV6, level), Width(isV6))
  {
    AdmitFits(inc, isV6, true);
    AtMeaning(Admit(inc, isV6, true), level, Width(isV6), Zeros(Width(isV6)));
  }

  /** The written routes are within the limit if and only if the pieces that the removed
      networks leave of the widened ones are. */
  lemma RouteLimitIff(inc: seq<Net>, exc: seq<Net>, deny: seq<Net>, limit: int, isV6: bool, level: nat)
    requires ValidNets(inc) && ValidNets(exc) && ValidNets(deny) && LevelOf(inc, limit, isV6, level)
    ensures var aggr, out := Widened(inc, limit, isV6, level), Removed(exc, deny, isV6);
            && |Subtract(aggr, out)| == PieceSum(Collapse(aggr), SetOf(out, []))
            && (|Subtract(aggr, out)| <= limit <==> PieceSum(Collapse(aggr), SetOf(out, [])) <= limit)
  {
    WidenedFits(inc, limit, isV6, level);
    AdmitFits(exc, isV6, false);
    AdmitFits(deny, isV6, false);
    SubtractCount(Widened(inc, limit, isV6, level), Removed(exc, deny, isV6), Width(isV6));
  }

  /** Removing networks that meet no route changes no route. */
  lemma DisjointKeepsRoutes(inc: seq<Bits>, exc: seq<Bits>, w: nat)
    requires FitAll(inc, w) && FitAll(exc, w)
    requires forall a: Bits :: |a| == w ==> !(InAny(inc, a) && InAny(exc, a))
    ensures Subtract(inc, exc) == Collapse(inc)
  {
    forall a: Bits | |a| == w ensures Mem(SetOf(inc, exc), a) <==> Mem(SetOf(inc, []), a) {
      SetMeaning(inc, exc, w, a);
      SetMeaning(inc, [], w, a);
    }
    SetMeaning(inc, exc, w, Zeros(w));
    SetMeaning(inc, [], w, Zeros(w));
    CanonicalUnique(SetOf(inc, exc), SetOf(inc, []), w);
  }

  lemma PaintOne(t: Trie, p: Bits, leaf: Trie)
    ensures PaintAll(t, [p], leaf) == Paint(t, p, leaf)
  {
    var none: seq<Bits> := [];
    assert [p][..0] == none;
  }

  /** One excluded network: inside a collapsed one it replaces that one by as many as it
      is longer; otherwise it removes those inside it. */
  lemma OneExcludeCount(inc: seq<Bits>, e: Bits)
    ensures forall a :: a in Collapse(inc) && a <= e ==>
              |Subtract(inc, [e])| == |Collapse(inc)| - 1 + |e| - |a|
    ensures (forall a :: a in Collapse(inc) ==> !(a <= e)) ==>
              |Subtract(inc, [e])| == |Collapse(inc)| - Under(Collapse(inc), e)
  {
    var t := PaintAll(Empty, inc, Full);
    PaintOne(t, e, Empty);
    forall a | a in Collapse(inc) && a <= e ensures |Subtract(inc, [e])| == |Collapse(inc)| - 1 + |e| - |a| {
      PaintInside(t, a, e);
    }
    if forall a :: a in Collapse(inc) ==> !(a <= e) {
      PaintOutside(t, e);
    }
  }

  /** With one excluded network the limit is kept if and only if the network it lies in,
      if any, is not longer by more than the room that is left, and one. */
  lemma OneExcludeLimitIff(inc: seq<Bits>, e: Bits, limit: int)
    requires |Collapse(inc)| <= limit
    ensures |Subtract(inc, [e])| <= limit <==>
            forall a :: a in Collapse(inc) && a <= e ==> |e| - |a| <= limit - |Collapse(inc)| + 1
  {
    OneExcludeCount(inc, e);
  }

  function TotalLength(ps: seq<Bits>): nat {
    if ps == [] then 0 else TotalLength(ps[..|ps| - 1]) + |ps[|ps| - 1]|
  }

  /** However they lie, excluded networks add at most the sum of their lengths. */
  lemma {:induction false} ExcludeBound(inc: seq<Bits>, exc: seq<Bits>)
    ensures |Subtract(inc, exc)| <= |Collapse(inc)| + TotalLength(exc)
  {
    if exc != [] {
      var init, e := exc[..|exc| - 1], exc[|exc| - 1];
      ExcludeBound(inc, init);
      PaintBound(SetOf(inc, init), e);
    }
  }

  lemma PaintBound(t: Trie, e: Bits)
    ensures |Prefixes(Paint(t, e, Empty))| <= |Prefixes(t)| + |e|
  {
    if a :| a in Prefixes(t) && a <= e {
      PaintInside(t, a, e);
    } else {
      PaintOutside(t, e);
    }
  }

  // ------------------------------------------------------- a family over the limit

  /** Every second network, `d + 1` bits longer than `p`. */
  function Odds(p: Bits, d: nat): seq<Bits>
    decreases d
  {
    if d == 0 then [p + [true]] else Odds(p + [false], d - 1) + Odds(p + [true], d - 1)
  }

  function Comb(d: nat): Trie {
    if d == 0 then Node(Empty, Full) else Node(Comb(d - 1), Comb(d - 1))
  }

  lemma {:induction false} CombPieces(d: nat, w: nat)
    requires d < w
    ensures Canonical(Comb(d), w) && Pieces(Comb(d)) == Pow2(d) && |Prefixes(Comb(d))| == Pow2(d)
  {
    if d > 0 { CombPieces(d - 1, w - 1); }
  }

  lemma {:induction false} CombMem(d: nat, a: Bits)
    requires d < |a|
    ensures Mem(Comb(d), a) <==> a[d]
  {
    if d > 0 { CombMem(d - 1, a[1..]); }
  }

  lemma PrefixBit(p: Bits, b: bool, a: Bits)
    requires |p| < |a|
    ensures p + [b] <= a <==> p <= a && a[|p|] == b
  {
    assert p + [b] <= a ==> a[..|p|] == (p + [b])[..|p|] == p;
    assert p <= a && a[|p|] == b ==> a[..|p| + 1] == p + [b];
  }

  lemma {:induction false} OddsMem(p: Bits, d: nat, a: Bits)
    requires |p| + d < |a|
    ensures InAny(Odds(p, d), a) <==> p <= a && a[|p| + d]
    decreases d
  {
    if d == 0 {
      assert p + [true] in Odds(p, 0);
      PrefixBit(p, true, a);
    } else {
      OddsMem(p + [false], d - 1, a);
      OddsMem(p + [true], d - 1, a);
      InAnyAppend(Odds(p + [false], d - 1), Odds(p + [true], d - 1), a);
      PrefixBit(p, false, a);
      PrefixBit(p, true, a);
    }
  }

  lemma {:induction false} OddsFit(p: Bits, d: nat)
    ensures FitAll(Odds(p, d), |p| + d + 1)
    decreases d
  {
    if d > 0 {
      OddsFit(p + [false], d - 1);
      OddsFit(p + [true], d - 1);
    }
  }

  lemma OddsUnder(p: Bits, d: nat, w: nat)
    requires |p| + d < w
    ensures FitAll(Odds(p, d), w) && Sub(SetOf(Odds(p, d), []), p) == Comb(d)
  {
    var e := SetOf(Odds(p, d), []);
    OddsFit(p, d);
    SetMeaning(Odds(p, d), [], w, Zeros(w));
    SubCanonical(e, p, w);
    CombPieces(d, w - |p|);
    forall a: Bits | |a| == w - |p| ensures Mem(Sub(e, p), a) <==> Mem(Comb(d), a) {
      SubMem(e, p, a);
      SetMeaning(Odds(p, d), [], w, p + a);
      OddsMem(p, d, p + a);
      CombMem(d, a);
    }
    CanonicalUnique(Sub(e, p), Comb(d), w - |p|);
  }

  lemma {:induction false} OneNet(p: Bits)
    ensures Prefixes(Paint(Empty, p, Full)) == [p]
  {
    if p != [] {
      OneNet(p[1..]);
      var x := Paint(Empty, p[1..], Full);
      var none: seq<Bits> := [];
      assert [p[0]] + p[1..] == p;
      assert !x.Empty? && Prepend(!p[0], none) == none && Prepend(p[0], [p[1..]]) == [p];
      if p[0] {
        assert Paint(Empty, p, Full) == Node(Empty, x);
      } else {
        assert Paint(Empty, p, Full) == Node(x, Empty);
      }
    }
  }

  /** A single network without every second one of its parts, `d + 1` bits longer. */
  lemma OddsCount(p: Bits, d: nat, w: nat)
    requires |p| + d < w
    ensures Collapse([p]) == [p] && |Subtract([p], Odds(p, d))| == Pow2(d)
  {
    OneNet(p);
    PaintOne(Empty, p, Full);
    OddsUnder(p, d, w);
    CombPieces(d, w - |p|);
    SubtractCount([p], Odds(p, d), w);
    var none: seq<Bits> := [];
    assert [p][..0] == none;
  }

  function AsNets(ps: seq<Bits>, isV6: bool): (r: seq<Net>)
    ensures |r| == |ps|
  {
    seq(|ps|, i requires 0 <= i < |ps| => Net(isV6, ps[i]))
  }

  lemma {:induction false} AdmitAll(ps: seq<Bits>, isV6: bool)
    ensures Admit(AsNets(ps, isV6), isV6, false) == ps
  {
    if ps != [] {
      var init := ps[..|ps| - 1];
      AdmitAll(init, isV6);
      assert AsNets(ps, isV6)[..|ps| - 1] == AsNets(init, isV6);
      assert ps == init + [ps[|ps| - 1]];
    }
  }

  /** The limit is not kept: for every limit there is room for, one admitted network and
      excludes inside it for which the aggregation is within the limit and the written
      routes are not. */
  lemma LimitNotKeptBySubtraction(p: Bits, d: nat, limit: int, isV6: bool, level: nat)
    requires MinAllowed(isV6) <= |p| && |p| + d < Width(isV6) && 0 < limit < Pow2(d)
    requires LevelOf([Net(isV6, p)], limit, isV6, level)
    ensures var aggr := Widened([Net(isV6, p)], limit, isV6, level);
            && |aggr| <= limit
            && |Subtract(aggr, Removed(AsNets(Odds(p, d), isV6), [], isV6))| == Pow2(d) > limit
  {
    OddsCount(p, d, Width(isV6));
    OneNetWidened(p, limit, isV6, level);
    AdmitAll(Odds(p, d), isV6);
    assert Removed(AsNets(Odds(p, d), isV6), [], isV6) == Odds(p, d);
  }

  lemma OneNetWidened(p: Bits, limit: int, isV6: bool, level: nat)
    requires MinAllowed(isV6) <= |p| <= Width(isV6) && limit > 0 && Collapse([p]) == [p]
    requires LevelOf([Net(isV6, p)], limit, isV6, level)
    ensures Widened([Net(isV6, p)], limit, isV6, level) == [p]
  {
    var inc, none: seq<Net> := [Net(isV6, p)], [];
    assert inc[..0] == none;
    assert Admit(inc, isV6, true) == [p];
    StartLevel([p], limit, Width(isV6));
    assert level == Width(isV6);
  }
}
