/** Collapsing a list of domains: sort by reversed bytes, then one pass that drops
    a name when it lies below the last name kept.  The pass relies on everything
    below `d` following `d` directly; `KeptIff` says exactly when that fails. */
module Domains {
  import Sorting

  // ----------------------------------------------------- names below other names

  predicate HasSuffix(s: string, t: string) {
    |t| <= |s| && s[|s| - |t|..] == t
  }

  /** `e` is a proper subdomain of `d`. */
  predicate Below(e: string, d: string) {
    HasSuffix(e, "." + d)
  }

  /** `q` is `d` or lies below it. */
  predicate Covers(d: string, q: string) {
    q == d || Below(q, d)
  }

  /** `c` ends in `a`, but the byte before sorts before the dot: `x-a`. */
  predicate DashOf(c: string, a: string) {
    HasSuffix(c, a) && |c| > |a| && c[|c| - |a| - 1] < '.'
  }

  lemma BelowShape(e: string, d: string)
    ensures Below(e, d) <==> HasSuffix(e, d) && |e| > |d| && e[|e| - |d| - 1] == '.'
  {
    var k := |e| - |d| - 1;
    if k >= 0 {
      assert ("." + d)[1..] == d;
      assert e[k..] == [e[k]] + e[k + 1..];
    }
  }

  lemma BelowTransitive(a: string, b: string, c: string)
    requires Below(a, b) && Below(b, c)
    ensures Below(a, c)
  {
  }

  lemma CoversTransitive(c: string, d: string, q: string)
    requires Covers(c, d) && Covers(d, q)
    ensures Covers(c, q)
  {
  }

  /** Of two names that cover `q` the longer one lies below the shorter. */
  lemma CoversChain(c: string, d: string, q: string)
    requires Covers(c, q) && Covers(d, q) && |c| < |d|
    ensures Below(d, c)
  {
    BelowShape(q, c);
    BelowShape(q, d);
    BelowShape(d, c);
    assert HasSuffix(q, c) && HasSuffix(q, d);
    assert d == q[|q| - |d|..];
    assert d[|d| - |c|..] == q[|q| - |c|..];
    assert d[|d| - |c| - 1] == q[|q| - |c| - 1];
  }

  lemma CoversSameLength(c: string, d: string, q: string)
    requires Covers(c, q) && Covers(d, q) && |c| == |d|
    ensures c == d
  {
    BelowShape(q, c);
    BelowShape(q, d);
  }

  // ------------------------------------------------------------------ the order

  function Last(s: string): char
    requires s != ""
  {
    s[|s| - 1]
  }

  function Init(s: string): string
    requires s != ""
  {
    s[..|s| - 1]
  }

  /** The order of `domainSorter`: lexicographic from the end. */
  predicate Less(a: string, b: string) {
    if b == "" then false
    else if a == "" then true
    else if Last(a) != Last(b) then Last(a) < Last(b)
    else Less(Init(a), Init(b))
  }

  predicate Le(a: string, b: string) {
    !Less(b, a)
  }

  lemma {:induction false} Trichotomy(a: string, b: string)
    ensures Less(a, b) || Less(b, a) || a == b
    ensures !(Less(a, b) && Less(b, a))
    ensures a == b ==> !Less(a, b)
  {
    if a != "" && b != "" && Last(a) == Last(b) {
      Trichotomy(Init(a), Init(b));
      assert a == Init(a) + [Last(a)] && b == Init(b) + [Last(b)];
    }
  }

  lemma {:induction false} LessTransitive(a: string, b: string, c: string)
    requires Less(a, b) && Less(b, c)
    ensures Less(a, c)
  {
    if a != "" && Last(a) == Last(b) == Last(c) {
      LessTransitive(Init(a), Init(b), Init(c));
    }
  }

  lemma LeTransitive(a: string, b: string, c: string)
    requires Le(a, b) && Le(b, c)
    ensures Le(a, c)
  {
    Trichotomy(a, b);
    Trichotomy(b, c);
    Trichotomy(a, c);
    if a != b && b != c { LessTransitive(a, b, c); }
  }

  lemma LeTotalOrder()
    ensures Sorting.TotalOrder(Le)
  {
    forall a, b ensures Le(a, b) || Le(b, a) {
      Trichotomy(a, b);
    }
    forall a, b | Le(a, b) && Le(b, a) ensures a == b {
      Trichotomy(a, b);
    }
    forall a, b, c | Le(a, b) && Le(b, c) ensures Le(a, c) {
      LeTransitive(a, b, c);
    }
  }

  lemma SuffixInit(s: string, t: string)
    requires t != ""
    ensures HasSuffix(s, t) <==> s != "" && Last(s) == Last(t) && HasSuffix(Init(s), Init(t))
  {
    if s != "" && |t| <= |s| {
      var k := |s| - |t|;
      assert s == Init(s) + [Last(s)] && t == Init(t) + [Last(t)];
      assert s[k..] == Init(s)[k..] + [Last(s)];
    }
  }

  /** Everything sorted between `d` and a name ending in `d` ends in `d`. */
  lemma {:induction false} BetweenEndsAlike(d: string, c: string, e: string)
    requires Le(d, c) && Le(c, e) && HasSuffix(e, d)
    ensures HasSuffix(c, d)
  {
    if d != "" {
      SuffixInit(e, d);
      SuffixInit(c, d);
      assert c != "";
      BetweenEndsAlike(Init(d), Init(c), Init(e));
    }
  }

  /** A common ending does not matter. */
  lemma {:induction false} CommonSuffix(x: string, y: string, a: string)
    ensures Less(x + a, y + a) <==> Less(x, y)
  {
    if a == "" {
      assert x + a == x && y + a == y;
    } else {
      CommonSuffix(x, y, Init(a));
      assert a == Init(a) + [Last(a)];
      assert Init(x + a) == x + Init(a) && Init(y + a) == y + Init(a);
      assert Last(x + a) == Last(a) == Last(y + a);
    }
  }

  lemma SplitSuffix(s: string, a: string) returns (x: string)
    requires HasSuffix(s, a)
    ensures s == x + a && |x| == |s| - |a|
  {
    x := s[..|s| - |a|];
  }

  /** A longer name with the same ending sorts later. */
  lemma LongerIsLater(s: string, a: string)
    requires HasSuffix(s, a) && |s| > |a|
    ensures Less(a, s)
  {
    var x := SplitSuffix(s, a);
    CommonSuffix("", x, a);
    assert "" + a == a;
  }

  /** `x-a` sorts after `a` and before everything below `a`. */
  lemma DashBeforeBelow(c: string, e: string, a: string)
    requires DashOf(c, a) && Below(e, a)
    ensures Less(a, c) && Less(c, e)
  {
    BelowShape(e, a);
    LongerIsLater(c, a);
    var x := SplitSuffix(c, a);
    var y := SplitSuffix(e, a);
    assert Last(x) == c[|c| - |a| - 1] && Last(y) == e[|e| - |a| - 1];
    CommonSuffix(x, y, a);
  }

  /** Between `a` and a name below it there is only `a` itself, `x-a`, and names
      below `a`. */
  lemma Interval(a: string, c: string, e: string)
    requires Le(a, c) && Le(c, e) && Below(e, a)
    ensures c == a || DashOf(c, a) || Below(c, a)
  {
    BelowShape(e, a);
    BelowShape(c, a);
    BetweenEndsAlike(a, c, e);
    if c != a {
      var x := SplitSuffix(c, a);
      var y := SplitSuffix(e, a);
      assert |c| == |a| ==> c == a;
      CommonSuffix(y, x, a);
      assert Last(x) == c[|c| - |a| - 1] && Last(y) == e[|e| - |a| - 1];
    }
  }

  // -------------------------------------------------------------------- the pass

  /** The one pass over a sorted list. */
  function Pass(s: seq<string>): seq<string> {
    if s == [] then []
    else
      var k, d := Pass(s[..|s| - 1]), s[|s| - 1];
      if k == [] || !Below(d, k[|k| - 1]) then k + [d] else k
  }

  /** The name the pass compares with after `n` entries. */
  function Current(s: seq<string>, n: nat): string
    requires 0 < n <= |s|
  {
    PassNonempty(s[..n]);
    Pass(s[..n])[|Pass(s[..n])| - 1]
  }

  lemma PassNonempty(s: seq<string>)
    requires s != []
    ensures Pass(s) != []
  {
  }

  predicate Appended(s: seq<string>, j: nat)
    requires j < |s|
  {
    j == 0 || !Below(s[j], Current(s, j))
  }

  lemma PassStep(s: seq<string>, j: nat)
    requires j < |s|
    ensures Pass(s[..j + 1]) == if Appended(s, j) then Pass(s[..j]) + [s[j]] else Pass(s[..j])
    ensures Current(s, j + 1) == if Appended(s, j) then s[j] else Current(s, j)
  {
    assert s[..j + 1][..j] == s[..j];
    if j > 0 { PassNonempty(s[..j]); }
  }

  lemma CurrentStep(s: seq<string>, j: nat)
    requires j < |s|
    ensures Current(s, j + 1) == if Appended(s, j) then s[j] else Current(s, j)
  {
    PassStep(s, j);
  }

  predicate Listed(s: seq<string>, d: string) {
    d in s
  }

  ghost predicate Sorted(s: seq<string>) {
    Sorting.Sorted(s, Le)
  }

  lemma SortedAt(s: seq<string>, i: nat, j: nat)
    requires Sorted(s) && i <= j < |s|
    ensures Le(s[i], s[j])
  {
    if i == j { Trichotomy(s[i], s[j]); }
  }

  lemma SortedIndex(s: seq<string>, d: string, j: nat) returns (i: nat)
    requires Sorted(s) && j < |s| && d in s && Less(d, s[j])
    ensures i < j && s[i] == d
  {
    i :| 0 <= i < |s| && s[i] == d;
    if i >= j {
      SortedAt(s, j, i);
      assert false;
    }
  }

  /** The current name is listed, and what was dropped after it lies below it. */
  lemma {:induction false} CurrentIndex(s: seq<string>, n: nat, k: nat) returns (m: nat)
    requires k < n <= |s|
    ensures m < n && s[m] == Current(s, n)
    ensures m < k ==> Below(s[k], Current(s, n))
  {
    CurrentStep(s, n - 1);
    if Appended(s, n - 1) {
      m := n - 1;
    } else {
      m := CurrentIndex(s, n - 1, if k == n - 1 then 0 else k);
    }
  }

  /** Whatever has been passed sorts up to the current name or lies below it. */
  lemma SinceCurrent(s: seq<string>, n: nat, k: nat)
    requires Sorted(s) && k < n <= |s|
    ensures Le(s[k], Current(s, n)) || Below(s[k], Current(s, n))
  {
    var m := CurrentIndex(s, n, k);
    if k <= m { SortedAt(s, k, m); }
  }

  /** Until something sorts between, the current name covers `a` once `a` has been
      passed, if `a` has no `x-a` in the list. */
  lemma {:induction false} CurrentCovers(s: seq<string>, a: string, i: nat, n: nat, j: nat)
    requires Sorted(s) && i < n <= j < |s| && s[i] == a && Below(s[j], a)
    requires forall c :: c in s ==> !DashOf(c, a)
    ensures Covers(Current(s, n), a)
  {
    PassStep(s, n - 1);
    if i < n - 1 {
      CurrentCovers(s, a, i, n - 1, j);
      NothingBetween(s, a, i, n - 1, j);
      if s[n - 1] != a { BelowUnder(s[n - 1], Current(s, n - 1), a); }
    }
  }

  lemma NothingBetween(s: seq<string>, a: string, i: nat, k: nat, j: nat)
    requires Sorted(s) && i <= k <= j < |s| && s[i] == a && Below(s[j], a)
    requires forall c :: c in s ==> !DashOf(c, a)
    ensures s[k] == a || Below(s[k], a)
  {
    SortedAt(s, i, k);
    SortedAt(s, k, j);
    Interval(a, s[k], s[j]);
    assert s[k] in s;
  }

  lemma BelowUnder(d: string, c: string, a: string)
    requires Below(d, a) && Covers(c, a)
    ensures Below(d, c)
  {
  }

  /** Every listed name above `d` has an `x-` sibling in the list. */
  ghost predicate Exposed(s: seq<string>, d: string) {
    forall a :: Listed(s, a) && Below(d, a) ==> exists c :: c in s && DashOf(c, a)
  }

  lemma AppendedIff(s: seq<string>, j: nat)
    requires Sorted(s) && j < |s|
    ensures Appended(s, j) <==> Exposed(s, s[j])
  {
    var d := s[j];
    if !Exposed(s, d) {
      var a :| Listed(s, a) && Below(d, a) && forall c :: c in s ==> !DashOf(c, a);
      BelowShape(d, a);
      LongerIsLater(d, a);
      var i := SortedIndex(s, a, j);
      CurrentCovers(s, a, i, j, j);
      BelowUnder(d, Current(s, j), a);
    }
    if !Appended(s, j) {
      var c := Current(s, j);
      var m := CurrentIndex(s, j, 0);
      assert Listed(s, c);
      forall x | x in s ensures !DashOf(x, c) {
        if DashOf(x, c) {
          DashBeforeBelow(x, d, c);
          var k := SortedIndex(s, x, j);
          SinceCurrent(s, j, k);
          BelowShape(x, c);
          assert false;
        }
      }
    }
  }

  lemma MembersStep(s: seq<string>, j: nat, d: string)
    requires j < |s|
    ensures d in s[..j + 1] <==> d in s[..j] || d == s[j]
    ensures d in Pass(s[..j + 1]) <==> d in Pass(s[..j]) || (d == s[j] && Appended(s, j))
  {
    PassStep(s, j);
    assert s[..j + 1] == s[..j] + [s[j]];
  }

  lemma {:induction false} PassMembers(s: seq<string>, n: nat, d: string)
    requires Sorted(s) && n <= |s|
    ensures d in Pass(s[..n]) <==> d in s[..n] && Exposed(s, d)
  {
    if n > 0 {
      PassMembers(s, n - 1, d);
      MembersStep(s, n - 1, d);
      AppendedIff(s, n - 1);
    }
  }

  /** Which names the pass keeps, in closed form: those whose listed parents all
      have an `x-` sibling in the list, in particular those without listed parents. */
  lemma KeptIff(s: seq<string>, d: string)
    requires Sorted(s)
    ensures d in Pass(s) <==> d in s && Exposed(s, d)
  {
    PassMembers(s, |s|, d);
    assert s[..|s|] == s;
  }

  // ---------------------------------------------------------------- consequences

  ghost predicate CoveredBy(s: seq<string>, q: string) {
    exists d :: d in s && Covers(d, q)
  }

  lemma {:induction false} PassSubset(s: seq<string>, d: string)
    ensures d in Pass(s) ==> d in s
  {
    if s != [] { PassSubset(s[..|s| - 1], d); }
  }

  lemma {:induction false} PassCovers(s: seq<string>, d: string) returns (k: string)
    requires d in s
    ensures k in Pass(s) && Covers(k, d)
  {
    var init, last := s[..|s| - 1], s[|s| - 1];
    var p := Pass(init);
    assert s == init + [last];
    if d in init {
      k := PassCovers(init, d);
    } else {
      k := if p == [] || !Below(last, p[|p| - 1]) then last else p[|p| - 1];
    }
  }

  /** The pass preserves exactly the set of names at or below a listed one, for every
      list, sorted or not. */
  lemma PassKeepsMeaning(s: seq<string>, q: string)
    ensures CoveredBy(Pass(s), q) <==> CoveredBy(s, q)
  {
    if CoveredBy(s, q) {
      var d :| d in s && Covers(d, q);
      var k := PassCovers(s, d);
      CoversTransitive(k, d, q);
    }
    if CoveredBy(Pass(s), q) {
      var d :| d in Pass(s) && Covers(d, q);
      PassSubset(s, d);
    }
  }

  /** No name of the list lies below another one. */
  ghost predicate Antichain(s: seq<string>) {
    forall d, e :: d in s && e in s ==> !Below(d, e)
  }

  /** Whatever has a listed parent has one without `x-` sibling. */
  ghost predicate Shielded(s: seq<string>) {
    forall d, p :: d in s && Listed(s, p) && Below(d, p) ==> !Exposed(s, d)
  }

  /** The shortest listed name above `d`. */
  lemma {:induction false} TopParent(s: seq<string>, d: string, p: string) returns (top: string)
    requires p in s && Below(d, p)
    ensures top in s && Below(d, top) && forall a :: a in s ==> !Below(top, a)
    decreases |p|
  {
    if a :| a in s && Below(p, a) {
      BelowTransitive(d, p, a);
      BelowShape(p, a);
      top := TopParent(s, d, a);
    } else {
      top := p;
    }
  }

  /** The pass leaves no name below another one exactly when every listed name with a
      listed parent has one that no listed `x-` name follows. */
  lemma AntichainIff(s: seq<string>)
    requires Sorted(s)
    ensures Antichain(Pass(s)) <==> Shielded(s)
  {
    if Shielded(s) {
      forall d, e | d in Pass(s) && e in Pass(s) ensures !Below(d, e) {
        KeptIff(s, d);
        KeptIff(s, e);
      }
    } else {
      var d, p :| d in s && Listed(s, p) && Below(d, p) && Exposed(s, d);
      var top := TopParent(s, d, p);
      KeptIff(s, d);
      KeptIff(s, top);
      assert !Antichain(Pass(s));
    }
  }

  /** With no listed `x-d` for a listed `d` nothing is exposed. */
  lemma NoDashShielded(s: seq<string>)
    requires forall c, d :: c in s && d in s ==> !DashOf(c, d)
    ensures Shielded(s)
  {
  }

  /** Letters, digits, underscore, hyphen and the dot between labels. */
  predicate NameByte(c: char) {
    'a' <= c <= 'z' || 'A' <= c <= 'Z' || '0' <= c <= '9' || c == '_' || c == '-' || c == '.'
  }

  /** In a normalised name the only byte that can sort before the dot is the hyphen. */
  lemma DashIsHyphen(c: string, a: string)
    requires forall i :: 0 <= i < |c| ==> NameByte(c[i])
    ensures DashOf(c, a) <==> HasSuffix(c, "-" + a)
  {
    var k := |c| - |a| - 1;
    if k >= 0 {
      assert NameByte(c[k]);
      assert ("-" + a)[1..] == a;
      assert c[k..] == [c[k]] + c[k + 1..];
    }
  }

  /** `a`, `y-a`, `x.a` sort in this order and are all kept, although the last lies
      below the first; for example `a.com`, `b-a.com`, `x.a.com`. */
  lemma HyphenExample(a: string, y: string, x: string)
    ensures var s := [a, y + "-" + a, x + "." + a];
            Sorted(s) && Pass(s) == s && Below(x + "." + a, a)
  {
    var b, e := y + "-" + a, x + "." + a;
    HyphenShape(a, y, x);
    DashBeforeBelow(b, e, a);
    LessTransitive(a, b, e);
    Trichotomy(a, b);
    Trichotomy(b, e);
    Trichotomy(a, e);
    PassOfThree(a, b, e);
  }

  lemma HyphenShape(a: string, y: string, x: string)
    ensures var b, e := y + "-" + a, x + "." + a; DashOf(b, a) && Below(e, a) && !Below(b, a) && !Below(e, b)
  {
  }

  lemma PassOfThree(a: string, b: string, e: string)
    requires !Below(b, a) && !Below(e, b)
    ensures Pass([a, b, e]) == [a, b, e]
  {
    var s, none := [a, b, e], [];
    assert s[..2] == [a, b] && [a, b][..1] == [a] && [a][..0] == none;
    assert Pass([a]) == [a];
    assert Pass([a, b]) == [a, b];
  }

  // ---------------------------------------------------------------- in place

  /** `domainSorter.Less`: compares byte by byte from the end. */
  method CompareFromEnd(a: string, b: string) returns (less: bool)
    ensures less == Less(a, b)
  {
    var k := 1;
    assert a[..|a|] == a && b[..|b|] == b;
    while k <= |a| && k <= |b|
      invariant 1 <= k && k - 1 <= |a| && k - 1 <= |b|
      invariant Less(a, b) == Less(a[..|a| - (k - 1)], b[..|b| - (k - 1)])
    {
      var x, y := a[..|a| - (k - 1)], b[..|b| - (k - 1)];
      assert Last(x) == a[|a| - k] && Last(y) == b[|b| - k];
      if a[|a| - k] != b[|b| - k] {
        return a[|a| - k] < b[|b| - k];
      }
      assert Init(x) == a[..|a| - k] && Init(y) == b[..|b| - k];
      k := k + 1;
    }
    less := |a| < |b|;
  }

  method SortDomains(a: array<string>)
    modifies a
    ensures a[..] == Sorting.Sort(old(a[..]), Le)
  {
    var s := Sorting.Sort(a[..], Le);
    LeTotalOrder();
    Sorting.SortMembers(a[..], Le);
    forall i | 0 <= i < a.Length {
      a[i] := s[i];
    }
    assert a[..] == s;
  }

  /** The pass, writing behind the index it reads at. */
  method Compact(a: array<string>) returns (n: nat)
    modifies a
    ensures n <= a.Length
    ensures a[..n] == Pass(old(a[..]))
  {
    ghost var s := a[..];
    var currentSuffix := "";
    n := 0;
    for i := 0 to a.Length
      invariant n <= i
      invariant a[..n] == Pass(s[..i])
      invariant forall k :: i <= k < a.Length ==> a[k] == s[k]
      invariant i > 0 ==> currentSuffix == "." + Current(s, i)
    {
      var d := a[i];
      PassStep(s, i);
      if i == 0 || !HasSuffix(d, currentSuffix) {
        currentSuffix := "." + d;
        a[n] := d;
        n := n + 1;
      }
    }
    assert s[..a.Length] == s;
  }

  /** Sorts and compacts the array it reads; the result is its first `n` entries. */
  method CollapseDomains(a: array<string>) returns (n: nat)
    modifies a
    ensures n <= a.Length
    ensures a[..n] == Pass(Sorting.Sort(old(a[..]), Le))
  {
    if a.Length == 0 {
      assert old(a[..]) == [];
      return 0;
    }
    SortDomains(a);
    n := Compact(a);
  }

  /** Collapsing any list keeps the names it covers and, when shielded, leaves no name
      below another; the order of the input does not matter. */
  lemma CollapseMeaning(list: seq<string>, q: string)
    ensures var r := Pass(Sorting.Sort(list, Le));
            && (CoveredBy(r, q) <==> CoveredBy(list, q))
            && (q in r <==> q in list && Exposed(list, q))
            && (Antichain(r) <==> Shielded(list))
  {
    var s := Sorting.Sort(list, Le);
    LeTotalOrder();
    Sorting.SortSorts(list, Le);
    Sorting.SortMembers(list, Le);
    PassKeepsMeaning(s, q);
    KeptIff(s, q);
    AntichainIff(s);
    assert forall d :: Exposed(s, d) <==> Exposed(list, d);
  }
}
