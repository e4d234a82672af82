/** Sets of addresses and their prefixes.

    An address is its bits; a prefix is the bits it fixes.  The set library the
    compiler uses is not part of this model; it is stood in for by canonical binary
    tries, and `PrefixesAreMaximal` together with `CanonicalUnique` shows that the
    list of prefixes is determined by the set alone: it holds exactly the largest
    prefixes inside the set. */
module PrefixSets {

  type Bits = seq<bool>

  datatype Trie = Empty | Full | Node(zero: Trie, one: Trie)

  function Child(t: Trie, b: bool): Trie {
    match t
    case Node(l, r) => if b then r else l
    case _ => t
  }

  predicate Mem(t: Trie, a: Bits)
    decreases a
  {
    match t
    case Empty => false
    case Full => true
    case Node(l, r) => a != [] && Mem(Child(t, a[0]), a[1..])
  }

  /** No node has two equal leaves, and no path is longer than `w`. */
  predicate Canonical(t: Trie, w: nat) {
    match t
    case Node(l, r) =>
      && w > 0 && Canonical(l, w - 1) && Canonical(r, w - 1)
      && !(l.Full? && r.Full?) && !(l.Empty? && r.Empty?)
    case _ => true
  }

  function Join(l: Trie, r: Trie): Trie {
    if l.Full? && r.Full? then Full
    else if l.Empty? && r.Empty? then Empty
    else Node(l, r)
  }

  /** `AddPrefix` and `RemovePrefix`: everything under `p` becomes `leaf`. */
  function Paint(t: Trie, p: Bits, leaf: Trie): Trie
    decreases p
  {
    if p == [] then leaf
    else if p[0] then Join(Child(t, false), Paint(Child(t, true), p[1..], leaf))
    else Join(Paint(Child(t, false), p[1..], leaf), Child(t, true))
  }

  function Prepend(b: bool, ps: seq<Bits>): (r: seq<Bits>)
    ensures |r| == |ps|
  {
    seq(|ps|, i requires 0 <= i < |ps| => [b] + ps[i])
  }

  /** The prefixes of a set, in ascending order. */
  function Prefixes(t: Trie): seq<Bits> {
    match t
    case Empty => []
    case Full => [[]]
    case Node(l, r) => Prepend(false, Prefixes(l)) + Prepend(true, Prefixes(r))
  }

  // -------------------------------------------------------------------- painting

  lemma {:induction false} PaintCanonical(t: Trie, p: Bits, leaf: Trie, w: nat)
    requires Canonical(t, w) && |p| <= w && !leaf.Node?
    ensures Canonical(Paint(t, p, leaf), w)
  {
    if p != [] {
      PaintCanonical(Child(t, p[0]), p[1..], leaf, w - 1);
    }
  }

  lemma JoinMem(l: Trie, r: Trie, a: Bits)
    requires a != []
    ensures Mem(Join(l, r), a) <==> Mem(if a[0] then r else l, a[1..])
  {
  }

  lemma ChildMem(t: Trie, a: Bits)
    requires a != []
    ensures Mem(t, a) <==> Mem(Child(t, a[0]), a[1..])
  {
  }

  lemma PrefixTail(p: Bits, a: Bits)
    requires p != [] && a != []
    ensures p <= a <==> p[0] == a[0] && p[1..] <= a[1..]
  {
  }

  lemma {:induction false} PaintMem(t: Trie, p: Bits, leaf: Trie, a: Bits)
    requires |p| <= |a| && !leaf.Node?
    ensures Mem(Paint(t, p, leaf), a) <==> if p <= a then leaf.Full? else Mem(t, a)
  {
    if p != [] {
      PrefixTail(p, a);
      ChildMem(t, a);
      PaintMem(Child(t, p[0]), p[1..], leaf, a[1..]);
      var l := if p[0] then Child(t, false) else Paint(Child(t, false), p[1..], leaf);
      var r := if p[0] then Paint(Child(t, true), p[1..], leaf) else Child(t, true);
      JoinMem(l, r, a);
    }
  }

  // -------------------------------------------------------- canonicity

  /** Some address of the width. */
  function Zeros(w: nat): (a: Bits)
    ensures |a| == w
  {
    if w == 0 then [] else [false] + Zeros(w - 1)
  }

  lemma {:induction false} NotEmptyHas(t: Trie, w: nat) returns (a: Bits)
    requires Canonical(t, w) && !t.Empty?
    ensures |a| == w && Mem(t, a)
  {
    match t
    case Full => a := Zeros(w);
    case Node(l, r) =>
      if l.Empty? {
        var x := NotEmptyHas(r, w - 1);
        a := [true] + x;
      } else {
        var x := NotEmptyHas(l, w - 1);
        a := [false] + x;
      }
  }

  lemma {:induction false} NotFullLacks(t: Trie, w: nat) returns (a: Bits)
    requires Canonical(t, w) && !t.Full?
    ensures |a| == w && !Mem(t, a)
  {
    match t
    case Empty => a := Zeros(w);
    case Node(l, r) =>
      if l.Full? {
        var x := NotFullLacks(r, w - 1);
        a := [true] + x;
      } else {
        var x := NotFullLacks(l, w - 1);
        a := [false] + x;
      }
  }

  /** The two sets have the same addresses of width `w`. */
  ghost predicate SameSet(t: Trie, u: Trie, w: nat) {
    forall a: Bits :: |a| == w ==> (Mem(t, a) <==> Mem(u, a))
  }

  lemma SameChild(t: Trie, u: Trie, w: nat, b: bool)
    requires w > 0 && SameSet(t, u, w)
    ensures SameSet(Child(t, b), Child(u, b), w - 1)
  {
    forall a: Bits | |a| == w - 1 ensures Mem(Child(t, b), a) <==> Mem(Child(u, b), a) {
      var x := [b] + a;
      assert x[1..] == a;
      ChildMem(t, x);
      ChildMem(u, x);
    }
  }

  /** A set has only one canonical trie. */
  lemma {:induction false} CanonicalUnique(t: Trie, u: Trie, w: nat)
    requires Canonical(t, w) && Canonical(u, w) && SameSet(t, u, w)
    ensures t == u
  {
    if t.Node? && u.Node? {
      SameChild(t, u, w, false);
      SameChild(t, u, w, true);
      CanonicalUnique(t.zero, u.zero, w - 1);
      CanonicalUnique(t.one, u.one, w - 1);
    } else if t.Node? {
      var a := NotEmptyHas(t, w);
      var b := NotFullLacks(t, w);
    } else if u.Node? {
      var a := NotEmptyHas(u, w);
      var b := NotFullLacks(u, w);
    } else {
      assert |Zeros(w)| == w;
    }
  }

  // ------------------------------------------------------- the list of prefixes

  ghost predicate InAny(ps: seq<Bits>, a: Bits) {
    exists p :: p in ps && p <= a
  }

  lemma PrependIn(b: bool, ps: seq<Bits>, p: Bits)
    ensures p in Prepend(b, ps) <==> p != [] && p[0] == b && p[1..] in ps
  {
    var r := Prepend(b, ps);
    if p in r {
      var i :| 0 <= i < |r| && r[i] == p;
      assert p[1..] == ps[i];
    }
    if p != [] && p[0] == b && p[1..] in ps {
      var i :| 0 <= i < |ps| && ps[i] == p[1..];
      assert r[i] == p;
    }
  }

  lemma NodePrefixes(l: Trie, r: Trie, p: Bits)
    ensures p in Prefixes(Node(l, r)) <==> p != [] && p[1..] in Prefixes(if p[0] then r else l)
  {
    PrependIn(false, Prefixes(l), p);
    PrependIn(true, Prefixes(r), p);
  }

  /** The prefixes denote the set. */
  lemma {:induction false} PrefixesMeaning(t: Trie, a: Bits)
    ensures Mem(t, a) <==> InAny(Prefixes(t), a)
    decreases t
  {
    match t
    case Empty =>
    case Full => assert [] in Prefixes(t) && [] <= a;
    case Node(l, r) =>
      if a == [] {
        assert forall p :: p in Prefixes(t) ==> p != [] by {
          forall p | p in Prefixes(t) ensures p != [] { NodePrefixes(l, r, p); }
        }
      } else {
        var c := Child(t, a[0]);
        PrefixesMeaning(c, a[1..]);
        if Mem(t, a) {
          var p :| p in Prefixes(c) && p <= a[1..];
          var x := [a[0]] + p;
          assert x[1..] == p;
          NodePrefixes(l, r, x);
          PrefixTail(x, a);
        }
        if InAny(Prefixes(t), a) {
          var p :| p in Prefixes(t) && p <= a;
          NodePrefixes(l, r, p);
          PrefixTail(p, a);
        }
      }
  }

  /** Everything of width `w` under `p` is in the set. */
  ghost predicate Inside(t: Trie, w: nat, p: Bits) {
    forall a: Bits :: |a| == w && p <= a ==> Mem(t, a)
  }

  /** `p` is inside and cannot be shortened. */
  ghost predicate Maximal(t: Trie, w: nat, p: Bits) {
    |p| <= w && Inside(t, w, p) && (p != [] ==> !Inside(t, w, p[..|p| - 1]))
  }

  lemma InsideChild(t: Trie, w: nat, p: Bits)
    requires p != [] && |p| <= w
    ensures Inside(t, w, p) <==> Inside(Child(t, p[0]), w - 1, p[1..])
  {
    if Inside(t, w, p) {
      forall a: Bits | |a| == w - 1 && p[1..] <= a ensures Mem(Child(t, p[0]), a) {
        var x := [p[0]] + a;
        assert x[1..] == a;
        PrefixTail(p, x);
        ChildMem(t, x);
      }
    }
    if Inside(Child(t, p[0]), w - 1, p[1..]) {
      forall a: Bits | |a| == w && p <= a ensures Mem(t, a) {
        PrefixTail(p, a);
        ChildMem(t, a);
      }
    }
  }

  lemma InsideRoot(t: Trie, w: nat)
    requires Canonical(t, w)
    ensures Inside(t, w, []) <==> t.Full?
  {
    if !t.Full? {
      var a := NotFullLacks(t, w);
      assert [] <= a;
    }
  }

  /** Something of width `w` lies under `p`. */
  function Extend(p: Bits, w: nat): (a: Bits)
    requires |p| <= w
    ensures |a| == w && p <= a
  {
    p + Zeros(w - |p|)
  }

  /** The list holds exactly the maximal prefixes of the set. */
  lemma {:induction false} PrefixesAreMaximal(t: Trie, w: nat, p: Bits)
    requires Canonical(t, w)
    ensures p in Prefixes(t) <==> Maximal(t, w, p)
    decreases t
  {
    InsideRoot(t, w);
    match t
    case Empty =>
      if |p| <= w { assert !Mem(t, Extend(p, w)); }
    case Full =>
      assert forall q :: Inside(t, w, q);
    case Node(l, r) =>
      NodePrefixes(l, r, p);
      if p != [] && |p| <= w {
        var c := Child(t, p[0]);
        PrefixesAreMaximal(c, w - 1, p[1..]);
        InsideChild(t, w, p);
        if |p| > 1 {
          var q := p[..|p| - 1];
          InsideChild(t, w, q);
          assert q[1..] == p[1..][..|p[1..]| - 1];
        }
      } else if p != [] {
        PrefixesAreMaximal(Child(t, p[0]), w - 1, p[1..]);
      }
  }

  // ------------------------------------------------------------------ difference

  function Diff(t: Trie, e: Trie): Trie
    decreases e
  {
    if e.Full? || t.Empty? then Empty
    else if e.Empty? then t
    else Join(Diff(Child(t, false), e.zero), Diff(Child(t, true), e.one))
  }

  lemma {:induction false} DiffCanonical(t: Trie, e: Trie, w: nat)
    requires Canonical(t, w) && Canonical(e, w)
    ensures Canonical(Diff(t, e), w)
    ensures Diff(t, e).Full? ==> t.Full? && e.Empty?
    decreases e
  {
    if e.Node? {
      DiffCanonical(Child(t, false), e.zero, w - 1);
      DiffCanonical(Child(t, true), e.one, w - 1);
    }
  }

  lemma {:induction false} DiffMem(t: Trie, e: Trie, a: Bits)
    requires Canonical(t, |a|) && Canonical(e, |a|)
    ensures Mem(Diff(t, e), a) <==> Mem(t, a) && !Mem(e, a)
    decreases e
  {
    if e.Node? {
      DiffMem(Child(t, a[0]), Child(e, a[0]), a[1..]);
      ChildMem(t, a);
      JoinMem(Diff(Child(t, false), e.zero), Diff(Child(t, true), e.one), a);
    }
  }

  /** The part of a set under a prefix. */
  function Sub(t: Trie, p: Bits): Trie
    decreases p
  {
    if p == [] then t else Sub(Child(t, p[0]), p[1..])
  }

  /** How often the way to the prefixes of a set branches off. */
  function Splits(t: Trie): nat {
    match t
    case Node(l, r) => 1 + Splits(l) + Splits(r)
    case _ => 0
  }

  /** How many prefixes are left of a network when `e` is taken out of it: one more
      for every split, one less for every prefix taken out. */
  function Pieces(e: Trie): int {
    1 + Splits(e) - |Prefixes(e)|
  }

  function PieceSum(ps: seq<Bits>, e: Trie): int {
    if ps == [] then 0 else PieceSum(ps[..|ps| - 1], e) + Pieces(Sub(e, ps[|ps| - 1]))
  }

  lemma {:induction false} PieceSumAppend(ps: seq<Bits>, qs: seq<Bits>, e: Trie)
    ensures PieceSum(ps + qs, e) == PieceSum(ps, e) + PieceSum(qs, e)
  {
    if qs == [] {
      assert ps + qs == ps;
    } else {
      assert (ps + qs)[..|ps + qs| - 1] == ps + qs[..|qs| - 1];
      PieceSumAppend(ps, qs[..|qs| - 1], e);
    }
  }

  lemma {:induction false} PieceSumPrepend(b: bool, ps: seq<Bits>, e: Trie)
    ensures PieceSum(Prepend(b, ps), e) == PieceSum(ps, Child(e, b))
  {
    if ps != [] {
      var init, last := ps[..|ps| - 1], ps[|ps| - 1];
      PieceSumPrepend(b, init, e);
      assert Prepend(b, ps)[..|ps| - 1] == Prepend(b, init);
      assert ([b] + last)[1..] == last;
    }
  }

  lemma JoinCount(l: Trie, r: Trie)
    requires !(l.Full? && r.Full?)
    ensures |Prefixes(Join(l, r))| == |Prefixes(l)| + |Prefixes(r)|
  {
  }

  lemma {:induction false} PiecesOfFull(e: Trie, w: nat)
    requires Canonical(e, w)
    ensures |Prefixes(Diff(Full, e))| == Pieces(e)
  {
    match e
    case Node(l, r) =>
      PiecesOfFull(l, w - 1);
      PiecesOfFull(r, w - 1);
      DiffCanonical(Full, l, w - 1);
      DiffCanonical(Full, r, w - 1);
      JoinCount(Diff(Full, l), Diff(Full, r));
    case _ =>
  }

  lemma DiffSplits(l: Trie, r: Trie, e: Trie, w: nat)
    requires Canonical(Node(l, r), w) && Canonical(e, w)
    ensures |Prefixes(Diff(Node(l, r), e))| ==
            |Prefixes(Diff(l, Child(e, false)))| + |Prefixes(Diff(r, Child(e, true)))|
  {
    if e.Node? {
      DiffCanonical(l, e.zero, w - 1);
      DiffCanonical(r, e.one, w - 1);
      JoinCount(Diff(l, e.zero), Diff(r, e.one));
    }
  }

  /** The size of a difference, network by network. */
  lemma {:induction false} DiffCount(t: Trie, e: Trie, w: nat)
    requires Canonical(t, w) && Canonical(e, w)
    ensures |Prefixes(Diff(t, e))| == PieceSum(Prefixes(t), e)
    decreases t
  {
    match t
    case Empty =>
    case Full =>
      PiecesOfFull(e, w);
      var none: seq<Bits> := [];
      assert [[]][..0] == none && Sub(e, []) == e;
    case Node(l, r) =>
      DiffCount(l, Child(e, false), w - 1);
      DiffCount(r, Child(e, true), w - 1);
      DiffSplits(l, r, e, w);
      PieceSumPrepend(false, Prefixes(l), e);
      PieceSumPrepend(true, Prefixes(r), e);
      PieceSumAppend(Prepend(false, Prefixes(l)), Prepend(true, Prefixes(r)), e);
  }

  lemma {:induction false} SubMem(t: Trie, p: Bits, a: Bits)
    ensures Mem(Sub(t, p), a) <==> Mem(t, p + a)
  {
    if p == [] {
      assert p + a == a;
    } else {
      SubMem(Child(t, p[0]), p[1..], a);
      ChildMem(t, p + a);
      assert (p + a)[1..] == p[1..] + a;
    }
  }

  lemma {:induction false} SubCanonical(t: Trie, p: Bits, w: nat)
    requires Canonical(t, w) && |p| <= w
    ensures Canonical(Sub(t, p), w - |p|)
  {
    if p != [] {
      SubCanonical(Child(t, p[0]), p[1..], w - 1);
    }
  }

  // ---------------------------------------------------------- taking one prefix out

  lemma {:induction false} HoleInFull(h: Bits)
    ensures |Prefixes(Paint(Full, h, Empty))| == |h| && !Paint(Full, h, Empty).Full?
  {
    if h != [] {
      HoleInFull(h[1..]);
    }
  }

  /** A prefix inside a listed one replaces that one by as many as it is longer. */
  lemma {:induction false} PaintInside(t: Trie, a: Bits, e: Bits)
    requires a in Prefixes(t) && a <= e
    ensures |Prefixes(Paint(t, e, Empty))| == |Prefixes(t)| - 1 + |e| - |a|
    ensures !Paint(t, e, Empty).Full?
    decreases e
  {
    match t
    case Full => HoleInFull(e);
    case Node(l, r) =>
      NodePrefixes(l, r, a);
      PrefixTail(a, e);
      PaintInside(Child(t, e[0]), a[1..], e[1..]);
      JoinCount(if e[0] then l else Paint(l, e[1..], Empty), if e[0] then Paint(r, e[1..], Empty) else r);
  }

  /** How many of the prefixes lie under `e`. */
  function Under(ps: seq<Bits>, e: Bits): nat {
    if ps == [] then 0 else Under(ps[..|ps| - 1], e) + if e <= ps[|ps| - 1] then 1 else 0
  }

  lemma {:induction false} UnderAppend(ps: seq<Bits>, qs: seq<Bits>, e: Bits)
    ensures Under(ps + qs, e) == Under(ps, e) + Under(qs, e)
  {
    if qs == [] {
      assert ps + qs == ps;
    } else {
      assert (ps + qs)[..|ps + qs| - 1] == ps + qs[..|qs| - 1];
      UnderAppend(ps, qs[..|qs| - 1], e);
    }
  }

  lemma {:induction false} UnderPrepend(b: bool, ps: seq<Bits>, e: Bits)
    requires e != []
    ensures Under(Prepend(b, ps), e) == if e[0] == b then Under(ps, e[1..]) else 0
  {
    if ps != [] {
      var init, last := ps[..|ps| - 1], ps[|ps| - 1];
      UnderPrepend(b, init, e);
      assert Prepend(b, ps)[..|ps| - 1] == Prepend(b, init);
      PrefixTail(e, [b] + last);
      assert ([b] + last)[1..] == last;
    }
  }

  lemma {:induction false} UnderAll(ps: seq<Bits>)
    ensures Under(ps, []) == |ps|
  {
    if ps != [] { UnderAll(ps[..|ps| - 1]); }
  }

  /** A prefix inside no listed one only removes those under it. */
  lemma {:induction false} PaintOutside(t: Trie, e: Bits)
    requires forall a :: a in Prefixes(t) ==> !(a <= e)
    ensures |Prefixes(Paint(t, e, Empty))| == |Prefixes(t)| - Under(Prefixes(t), e)
    decreases e
  {
    if e == [] {
      UnderAll(Prefixes(t));
    } else if t.Node? {
      var c := Child(t, e[0]);
      forall a | a in Prefixes(c) ensures !(a <= e[1..]) {
        assert ([e[0]] + a)[1..] == a;
        NodePrefixes(t.zero, t.one, [e[0]] + a);
        PrefixTail([e[0]] + a, e);
      }
      PaintOutside(c, e[1..]);
      UnderPrepend(false, Prefixes(t.zero), e);
      UnderPrepend(true, Prefixes(t.one), e);
      UnderAppend(Prepend(false, Prefixes(t.zero)), Prepend(true, Prefixes(t.one)), e);
      PaintNotFull(c, e[1..]);
      JoinCount(if e[0] then t.zero else Paint(c, e[1..], Empty), if e[0] then Paint(c, e[1..], Empty) else t.one);
    } else {
      assert t.Full? ==> [] in Prefixes(t);
      PaintEmpty(e);
    }
  }

  lemma {:induction false} PaintNotFull(t: Trie, e: Bits)
    ensures !Paint(t, e, Empty).Full?
    decreases e
  {
    if e != [] { PaintNotFull(Child(t, e[0]), e[1..]); }
  }

  lemma {:induction false} PaintEmpty(e: Bits)
    ensures Paint(Empty, e, Empty) == Empty
  {
    if e != [] { PaintEmpty(e[1..]); }
  }
}
