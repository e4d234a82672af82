/** Compiling domain rules into a response policy zone.

    A zone holds blocked and passed names, each standing for itself and everything
    below it.  Resolvers apply the most specific matching entry (sections 3.1, 3.3
    and 4.2 of draft-vixie-dnsop-dns-rpz).  `ZoneMeaningIff` says exactly when the
    compiled zone blocks what its rules say: the names under an include and under
    no exclude, also when some excludes are not written as passed names. */
module Rpz {
  import opened Domains
  import Sorting

  datatype DomainRule = DomainRule(domain: string, isEx: bool)

  datatype Zone = Zone(blocked: seq<string>, passed: seq<string>)

  // -------------------------------------------------------------------- meaning

  /** Entries the zone writer leaves out. */
  predicate Written(d: string) {
    d != "" && d != "."
  }

  /** `q` is blocked when the longest written entry that covers it is a blocked one. */
  ghost predicate Blocks(z: Zone, q: string) {
    exists d :: d in z.blocked && Written(d) && Covers(d, q) && Outranks(z, d, q)
  }

  ghost predicate Outranks(z: Zone, d: string, q: string) {
    forall x :: x in z.passed && Written(x) && Covers(x, q) ==> |x| < |d|
  }

  ghost predicate Under(names: set<string>, q: string) {
    exists d :: d in names && Covers(d, q)
  }

  // ------------------------------------------------- what the compiler produces

  ghost predicate DashListed(names: set<string>, a: string) {
    exists c :: c in names && DashOf(c, a)
  }

  /** Every listed name above `d` has a listed `x-` sibling. */
  ghost predicate ExposedIn(names: set<string>, d: string) {
    forall a :: a in names && Below(d, a) ==> DashListed(names, a)
  }

  /** The zone of includes `inc` and excludes `exc`, of which `pass` are also written
      as passed names. */
  ghost predicate Compiled(z: Zone, inc: set<string>, exc: set<string>, pass: set<string>) {
    && (forall d :: d in z.blocked <==> d in inc && d !in exc && ExposedIn(inc + exc, d))
    && (forall d :: d in z.passed <==> d in pass && ExposedIn(pass, d))
  }

  /** Each listed name is covered by an exposed one: the shortest above it. */
  lemma {:induction false} ExposedCover(names: set<string>, d: string) returns (top: string)
    requires d in names
    ensures top in names && Covers(top, d) && ExposedIn(names, top)
    decreases |d|
  {
    if a :| a in names && Below(d, a) {
      BelowShape(d, a);
      top := ExposedCover(names, a);
      CoversTransitive(top, a, d);
    } else {
      top := d;
    }
  }

  /** For every list: what is blocked lies under an include. */
  lemma BlockedIsIncluded(z: Zone, inc: set<string>, exc: set<string>, pass: set<string>, q: string)
    requires Compiled(z, inc, exc, pass) && Blocks(z, q)
    ensures Under(inc - exc, q)
  {
  }

  /** For every list: what lies under an include and under no exclude is blocked. */
  lemma IncludedIsBlocked(z: Zone, inc: set<string>, exc: set<string>, pass: set<string>, q: string)
    requires Compiled(z, inc, exc, pass) && pass <= exc && "" !in inc && "." !in inc
    requires Under(inc, q) && !Under(exc, q)
    ensures Blocks(z, q)
  {
    var d :| d in inc && Covers(d, q);
    var top := ExposedCover(inc + exc, d);
    CoversTransitive(top, d, q);
    assert top !in exc;
    assert top in z.blocked;
    assert forall x :: x in z.passed ==> x in exc && !Covers(x, q);
    assert Outranks(z, top, q);
  }

  /** Every include below a passed name has a listed parent without `x-` sibling. */
  ghost predicate Sheltered(inc: set<string>, exc: set<string>, pass: set<string>) {
    forall d, x :: d in inc && d !in exc && x in pass && Below(d, x) ==> !ExposedIn(inc + exc, d)
  }

  /** Every exclude below a blocked name lies under a passed one. */
  ghost predicate Effective(inc: set<string>, exc: set<string>, pass: set<string>) {
    forall d, x :: d in inc && d !in exc && ExposedIn(inc + exc, d) && x in exc && Below(x, d) ==> Under(pass, x)
  }

  /** A blocked name that covers `q` is shorter than every exclude that covers `q`. */
  lemma BlockedIsShorter(inc: set<string>, exc: set<string>, d: string, x: string, q: string)
    requires Sheltered(inc, exc, exc) && d in inc && d !in exc && ExposedIn(inc + exc, d) && x in exc
    requires Covers(d, q) && Covers(x, q)
    ensures Below(x, d)
  {
    if |x| < |d| {
      CoversChain(x, d, q);
    } else if |x| == |d| {
      CoversSameLength(x, d, q);
    } else {
      CoversChain(d, x, q);
    }
  }

  lemma ExcludedIsNotBlocked(z: Zone, inc: set<string>, exc: set<string>, pass: set<string>, q: string)
    requires Compiled(z, inc, exc, pass) && pass <= exc && forall d :: d in exc ==> Written(d)
    requires Sheltered(inc, exc, exc) && Effective(inc, exc, pass) && Under(exc, q)
    ensures !Blocks(z, q)
  {
    var x :| x in exc && Covers(x, q);
    forall d | d in z.blocked && Covers(d, q) ensures !Outranks(z, d, q) {
      BlockedIsShorter(inc, exc, d, x, q);
      var p :| p in pass && Covers(p, x);
      var k := ExposedCover(pass, p);
      CoversTransitive(p, x, q);
      CoversTransitive(k, p, q);
      assert k in z.passed && Written(k);
      BlockedIsShorter(inc, exc, d, k, q);
      BelowShape(k, d);
    }
  }

  /** An exposed include below an exclude is blocked although it is excluded. */
  lemma ExposedIsBlocked(z: Zone, inc: set<string>, exc: set<string>, pass: set<string>, d: string, x: string)
    requires Compiled(z, inc, exc, pass) && pass <= exc && "" !in inc && "." !in inc
    requires d in inc && d !in exc && x in exc && Below(d, x) && ExposedIn(inc + exc, d)
    ensures Blocks(z, d) && Under(exc, d)
  {
  }

  /** An exclude below a blocked name and under no passed one has no effect. */
  lemma UnpassedIsBlocked(z: Zone, inc: set<string>, exc: set<string>, pass: set<string>, d: string, x: string)
    requires Compiled(z, inc, exc, pass) && Written(d)
    requires d in inc && d !in exc && ExposedIn(inc + exc, d) && x in exc && Below(x, d) && !Under(pass, x)
    ensures Blocks(z, x) && Under(exc, x)
  {
    assert Covers(d, x) && Outranks(z, d, x);
  }

  ghost predicate MeansItsRules(z: Zone, inc: set<string>, exc: set<string>) {
    forall q :: Blocks(z, q) <==> Under(inc, q) && !Under(exc, q)
  }

  /** The zone blocks exactly the names under an include and under no exclude if and
      only if every include below an exclude has a listed parent that no listed `x-`
      name follows, and every exclude below a blocked name lies under a passed one. */
  lemma MeaningIff(z: Zone, inc: set<string>, exc: set<string>, pass: set<string>)
    requires Compiled(z, inc, exc, pass) && pass <= exc && forall d :: d in inc + exc ==> Written(d)
    ensures MeansItsRules(z, inc, exc) <==> Sheltered(inc, exc, exc) && Effective(inc, exc, pass)
  {
    if !Sheltered(inc, exc, exc) {
      var d, x :| d in inc && d !in exc && x in exc && Below(d, x) && ExposedIn(inc + exc, d);
      ExposedIsBlocked(z, inc, exc, pass, d, x);
    } else if !Effective(inc, exc, pass) {
      var d, x :| d in inc && d !in exc && ExposedIn(inc + exc, d) && x in exc && Below(x, d) && !Under(pass, x);
      UnpassedIsBlocked(z, inc, exc, pass, d, x);
    } else {
      forall q ensures Blocks(z, q) <==> Under(inc, q) && !Under(exc, q) {
        if Blocks(z, q) { BlockedIsIncluded(z, inc, exc, pass, q); }
        if Under(exc, q) {
          ExcludedIsNotBlocked(z, inc, exc, pass, q);
        } else if Under(inc, q) {
          IncludedIsBlocked(z, inc, exc, pass, q);
        }
      }
    }
  }

  /** When all excludes are passed names, the first condition is all there is. */
  lemma ZoneMeaningIff(z: Zone, inc: set<string>, exc: set<string>)
    requires Compiled(z, inc, exc, exc) && forall d :: d in inc + exc ==> Written(d)
    ensures MeansItsRules(z, inc, exc) <==> Sheltered(inc, exc, exc)
  {
    MeaningIff(z, inc, exc, exc);
    assert forall x :: x in exc ==> Covers(x, x) && Under(exc, x);
  }

  /** Without a listed `x-d` for a listed `d` the zone means its rules. */
  lemma NoHyphenMeansRules(z: Zone, inc: set<string>, exc: set<string>)
    requires Compiled(z, inc, exc, exc) && forall d :: d in inc + exc ==> Written(d)
    requires forall c, d :: c in inc + exc && d in inc + exc ==> !DashOf(c, d)
    ensures MeansItsRules(z, inc, exc)
  {
    ZoneMeaningIff(z, inc, exc);
  }

  /** The ad-block zone does not write globally removed names as passed ones, so a
      removal below an included name that stands at the top of its tree has no effect. */
  lemma RemovalHasNoEffect(z: Zone, inc: set<string>, exc: set<string>, pass: set<string>, d: string, q: string)
    requires Compiled(z, inc, exc, pass) && pass <= exc && Written(d)
    requires d in inc && d !in exc && Covers(d, q) && !Under(pass, q)
    requires forall a :: a in inc + exc ==> !Below(d, a)
    ensures Blocks(z, q)
  {
  }

  // ----------------------------------------------------------------- compilation

  /** Copies a set into a list, in no particular order. */
  method Entries(names: set<string>) returns (list: seq<string>)
    ensures forall d :: d in list <==> d in names
  {
    list := [];
    var rest := names;
    while rest != {}
      invariant rest <= names
      invariant forall d :: d in list <==> d in names && d !in rest
      decreases |rest|
    {
      var d :| d in rest;
      list := list + [d];
      rest := rest - {d};
    }
  }

  method Collapse(list: seq<string>) returns (kept: seq<string>)
    ensures kept == Pass(Sorting.Sort(list, Le))
  {
    var a := new string[|list|](i requires 0 <= i < |list| => list[i]);
    assert a[..] == list;
    var n := CollapseDomains(a);
    kept := a[..n];
  }

  lemma KeptInSet(list: seq<string>, names: set<string>, d: string)
    requires forall x :: x in list <==> x in names
    ensures d in Pass(Sorting.Sort(list, Le)) <==> d in names && ExposedIn(names, d)
  {
    CollapseMeaning(list, d);
    assert Exposed(list, d) <==> ExposedIn(names, d) by {
      forall a ensures Listed(list, a) <==> a in names {}
      forall a ensures (exists c :: c in list && DashOf(c, a)) <==> DashListed(names, a) {}
    }
  }

  /** The collapsed union without its excludes is blocked, the collapsed `pass` passed. */
  method BuildZone(inc: set<string>, exc: set<string>, pass: set<string>) returns (z: Zone)
    ensures Compiled(z, inc, exc, pass)
  {
    var incList := Entries(inc);
    var excList := Entries(exc);
    var union := incList + excList;
    var unionOpt := Collapse(union);
    var final: seq<string> := [];
    for i := 0 to |unionOpt|
      invariant forall d :: d in final <==> d in unionOpt[..i] && d !in exc
    {
      assert unionOpt[..i + 1] == unionOpt[..i] + [unionOpt[i]];
      if unionOpt[i] !in exc {
        final := final + [unionOpt[i]];
      }
    }
    assert unionOpt[..|unionOpt|] == unionOpt;
    var passList := Entries(pass);
    var passed := Collapse(passList);
    z := Zone(final, passed);
    forall d ensures d in z.blocked <==> d in inc && d !in exc && ExposedIn(inc + exc, d) {
      KeptInSet(union, inc + exc, d);
    }
    forall d ensures d in z.passed <==> d in pass && ExposedIn(pass, d) {
      KeptInSet(passList, pass, d);
    }
  }

  function Named(rules: seq<DomainRule>, isEx: bool): set<string> {
    set r | r in rules && r.isEx == isEx :: r.domain
  }

  /** Sorts rules into includes and excludes. */
  method Divide(rules: seq<DomainRule>) returns (inc: set<string>, exc: set<string>)
    ensures inc == Named(rules, false) && exc == Named(rules, true)
  {
    inc, exc := {}, {};
    for i := 0 to |rules|
      invariant inc == Named(rules[..i], false) && exc == Named(rules[..i], true)
    {
      assert rules[..i + 1] == rules[..i] + [rules[i]];
      if rules[i].isEx {
        exc := exc + {rules[i].domain};
      } else {
        inc := inc + {rules[i].domain};
      }
    }
    assert rules[..|rules|] == rules;
  }

  method BuildSimpleRPZ(rules: seq<DomainRule>) returns (z: Zone)
    ensures Compiled(z, Named(rules, false), Named(rules, true), Named(rules, true))
  {
    var inc, exc := Divide(rules);
    z := BuildZone(inc, exc, exc);
  }

  /** A rule of the given kind covers `q`. */
  ghost predicate Ruled(rules: seq<DomainRule>, isEx: bool, q: string) {
    exists r :: r in rules && r.isEx == isEx && Covers(r.domain, q)
  }

  lemma RuledIsUnder(rules: seq<DomainRule>, isEx: bool, q: string)
    ensures Ruled(rules, isEx, q) <==> Under(Named(rules, isEx), q)
  {
    if Ruled(rules, isEx, q) {
      var r :| r in rules && r.isEx == isEx && Covers(r.domain, q);
      assert r.domain in Named(rules, isEx);
    }
  }

  lemma UnderEither(a: set<string>, b: set<string>, q: string)
    ensures Under(a + b, q) <==> Under(a, q) || Under(b, q)
  {
    if Under(a, q) { var d :| d in a && Covers(d, q); assert d in a + b; }
    if Under(b, q) { var d :| d in b && Covers(d, q); assert d in a + b; }
  }

  /** The compiled zone, rules to meaning: what is blocked is included, what is included
      and not excluded is blocked, and these are all if and only if the includes are
      sheltered. */
  lemma SimpleZoneMeaning(rules: seq<DomainRule>, z: Zone)
    requires Compiled(z, Named(rules, false), Named(rules, true), Named(rules, true))
    requires forall r :: r in rules ==> Written(r.domain)
    ensures forall q :: Blocks(z, q) ==> Ruled(rules, false, q)
    ensures forall q :: Ruled(rules, false, q) && !Ruled(rules, true, q) ==> Blocks(z, q)
    ensures (forall q :: Blocks(z, q) <==> Ruled(rules, false, q) && !Ruled(rules, true, q)) <==>
            Sheltered(Named(rules, false), Named(rules, true), Named(rules, true))
  {
    var inc, exc := Named(rules, false), Named(rules, true);
    forall q
      ensures (Ruled(rules, false, q) <==> Under(inc, q)) && (Ruled(rules, true, q) <==> Under(exc, q))
      ensures Blocks(z, q) ==> Under(inc, q)
      ensures Under(inc, q) && !Under(exc, q) ==> Blocks(z, q)
    {
      RuledIsUnder(rules, false, q);
      RuledIsUnder(rules, true, q);
      if Blocks(z, q) { BlockedIsIncluded(z, inc, exc, exc, q); }
      if Under(inc, q) && !Under(exc, q) { IncludedIsBlocked(z, inc, exc, exc, q); }
    }
    ZoneMeaningIff(z, inc, exc);
  }

  // ------------------------------------------------------------- the proxy zone

  predicate Digits(s: string) {
    forall i :: 0 <= i < |s| ==> '0' <= s[i] <= '9'
  }

  predicate NumberedPrefix(s: string, base: string) {
    base <= s && Digits(s[|base|..])
  }

  function Lower(s: string): (t: string)
    ensures |t| == |s|
    ensures forall i :: 0 <= i < |s| ==> t[i] as int == s[i] as int + if 'A' <= s[i] <= 'Z' then 32 else 0
  {
    seq(|s|, i requires 0 <= i < |s| => if 'A' <= s[i] <= 'Z' then (s[i] as int + 32) as char else s[i])
  }

  function Dots(s: string): nat {
    if s == "" then 0 else Dots(s[1..]) + if s[0] == '.' then 1 else 0
  }

  /** Position of the first dot, or the length. */
  function FirstDot(s: string): (k: nat)
    ensures k <= |s| && (k < |s| ==> s[k] == '.') && forall i :: 0 <= i < k ==> s[i] != '.'
  {
    if s == "" || s[0] == '.' then 0 else 1 + FirstDot(s[1..])
  }

  /** Drops a leading www, m, hd, cdn or number first, if a dot remains. */
  function StripPrefix(d: string): string {
    var k := FirstDot(d);
    if Dots(d) >= 2 && 0 < k < |d| then
      if Strippable(Lower(d[..k])) then d[k + 1..] else d
    else d
  }

  predicate Strippable(prefix: string) {
    || NumberedPrefix(prefix, "www") || NumberedPrefix(prefix, "m") || NumberedPrefix(prefix, "hd")
    || NumberedPrefix(prefix, "cdn") || Digits(prefix)
  }

  lemma {:induction false} DotsAfterFirst(s: string)
    requires FirstDot(s) < |s|
    ensures Dots(s) == 1 + Dots(s[FirstDot(s) + 1..])
  {
    if s[0] != '.' {
      DotsAfterFirst(s[1..]);
      assert s[1..][FirstDot(s[1..]) + 1..] == s[FirstDot(s) + 1..];
    }
  }

  /** Stripping only widens: the result covers the name, and still has a dot. */
  lemma StripWidens(d: string)
    requires Dots(d) >= 1
    ensures Covers(StripPrefix(d), d) && Dots(StripPrefix(d)) >= 1
  {
    var k := FirstDot(d);
    if StripPrefix(d) != d {
      DotsAfterFirst(d);
      assert d[k..] == "." + d[k + 1..];
    }
  }

  /** Which names are shortened: those whose first label is www, m, hd or cdn, in any case,
      perhaps with a number, or a number, and that have a dot left afterwards. */
  lemma StripShape(first: string, rest: string)
    requires forall i :: 0 <= i < |first| ==> first[i] != '.'
    ensures var d := first + "." + rest;
            StripPrefix(d) ==
            if Dots(rest) > 0 && first != "" && NumberedLabel(Lower(first)) then rest else d
  {
    var d := first + "." + rest;
    FirstDotAt(first, rest);
    DotsAfterFirst(d);
    assert d[..|first|] == first && d[|first| + 1..] == rest;
    StrippableSame(Lower(first));
  }

  ghost predicate NumberedLabel(s: string) {
    Numbered(s, "www") || Numbered(s, "m") || Numbered(s, "hd") || Numbered(s, "cdn") || Numbered(s, "")
  }

  /** `base` and then only digits. */
  ghost predicate Numbered(s: string, base: string) {
    |base| <= |s| && s[..|base|] == base && forall i :: |base| <= i < |s| ==> '0' <= s[i] <= '9'
  }

  lemma NumberedSame(s: string, base: string)
    ensures NumberedPrefix(s, base) <==> Numbered(s, base)
  {
    if |base| <= |s| {
      assert forall i :: |base| <= i < |s| ==> s[i] == s[|base|..][i - |base|];
    }
  }

  lemma StrippableSame(s: string)
    ensures Strippable(s) <==> NumberedLabel(s)
  {
    NumberedSame(s, "www");
    NumberedSame(s, "m");
    NumberedSame(s, "hd");
    NumberedSame(s, "cdn");
  }

  lemma FirstDotAt(first: string, rest: string)
    requires forall i :: 0 <= i < |first| ==> first[i] != '.'
    ensures FirstDot(first + "." + rest) == |first|
  {
    var d := first + "." + rest;
    assert d[|first|] == '.' && forall i :: 0 <= i < |first| ==> d[i] == first[i];
  }

  method StripAll(names: set<string>) returns (stripped: set<string>)
    ensures stripped == Stripped(names)
  {
    stripped := {};
    var rest := names;
    while rest != {}
      invariant rest <= names
      invariant stripped == (set d | d in names - rest :: StripPrefix(d))
      decreases |rest|
    {
      var d :| d in rest;
      stripped := stripped + {StripPrefix(d)};
      rest := rest - {d};
      assert names - rest == (names - rest - {d}) + {d};
    }
  }

  /** proxy.rpz: includes stripped, excludes from three lists and not stripped. */
  method BuildProxyZone(rules: seq<DomainRule>, removed: set<string>, excluded: set<string>) returns (z: Zone)
    ensures var exc := Named(rules, true) + removed + excluded;
            Compiled(z, Stripped(Named(rules, false)), exc, exc)
  {
    var inc, exc := Divide(rules);
    var stripped := StripAll(inc);
    z := BuildZone(stripped, exc + removed + excluded, exc + removed + excluded);
  }

  /** adblock.rpz: the removed names are excludes, but not passed names. */
  method BuildAdblockZone(rules: seq<DomainRule>, removed: set<string>) returns (z: Zone)
    ensures Compiled(z, Named(rules, false), Named(rules, true) + removed, Named(rules, true))
  {
    var inc, exc := Divide(rules);
    z := BuildZone(inc, exc + removed, exc);
  }

  /** Every name under an include as listed, and under no exclude, is proxied. */
  lemma ProxyCoversIncludes(z: Zone, inc: set<string>, exc: set<string>, q: string)
    requires Compiled(z, set d | d in inc :: StripPrefix(d), exc, exc)
    requires forall d :: d in inc ==> Dots(d) >= 1 && Written(d) && Written(StripPrefix(d))
    requires Under(inc, q) && !Under(exc, q)
    ensures Blocks(z, q)
  {
    var d :| d in inc && Covers(d, q);
    StripWidens(d);
    CoversTransitive(StripPrefix(d), d, q);
    var stripped := set x | x in inc :: StripPrefix(x);
    assert StripPrefix(d) in stripped;
    IncludedIsBlocked(z, stripped, exc, exc, q);
  }

  /** An include of the proxy zone, stripped, covers `q`. */
  ghost predicate RuledStripped(rules: seq<DomainRule>, q: string) {
    exists r :: r in rules && !r.isEx && Covers(StripPrefix(r.domain), q)
  }

  function Stripped(names: set<string>): set<string> {
    set d | d in names :: StripPrefix(d)
  }

  lemma RuledStrippedIsUnder(rules: seq<DomainRule>, q: string)
    ensures RuledStripped(rules, q) <==> Under(Stripped(Named(rules, false)), q)
  {
    if RuledStripped(rules, q) {
      var r :| r in rules && !r.isEx && Covers(StripPrefix(r.domain), q);
      assert r.domain in Named(rules, false);
      assert StripPrefix(r.domain) in Stripped(Named(rules, false));
    }
  }

  /** The proxy zone blocks exactly what a stripped include covers and no exclude of the
      three lists does, if and only if the stripped includes are sheltered. */
  lemma ProxyMeaningIff(rules: seq<DomainRule>, removed: set<string>, excluded: set<string>, z: Zone)
    requires var exc := Named(rules, true) + removed + excluded; Compiled(z, Stripped(Named(rules, false)), exc, exc)
    requires forall r :: r in rules ==> Written(r.domain) && Written(StripPrefix(r.domain))
    requires forall d :: d in removed + excluded ==> Written(d)
    ensures var exc := Named(rules, true) + removed + excluded;
            (forall q :: Blocks(z, q) <==>
               RuledStripped(rules, q) && !Ruled(rules, true, q) && !Under(removed, q) && !Under(excluded, q)) <==>
            Sheltered(Stripped(Named(rules, false)), exc, exc)
  {
    var inc, exc := Stripped(Named(rules, false)), Named(rules, true) + removed + excluded;
    forall q
      ensures RuledStripped(rules, q) <==> Under(inc, q)
      ensures Ruled(rules, true, q) || Under(removed, q) || Under(excluded, q) <==> Under(exc, q)
    {
      RuledStrippedIsUnder(rules, q);
      RuledIsUnder(rules, true, q);
      UnderEither(Named(rules, true), removed, q);
      UnderEither(Named(rules, true) + removed, excluded, q);
    }
    ZoneMeaningIff(z, inc, exc);
  }

  /** Every removed name below a blocked one lies under an exclude of the lists. */
  ghost predicate RemovalsCovered(rules: seq<DomainRule>, removed: set<string>) {
    var inc, exc := Named(rules, false), Named(rules, true) + removed;
    forall d, x :: d in inc && d !in exc && ExposedIn(inc + exc, d) && x in removed && Below(x, d) ==> Ruled(rules, true, x)
  }

  lemma RemovalsEffective(rules: seq<DomainRule>, removed: set<string>)
    ensures RemovalsCovered(rules, removed) <==>
            Effective(Named(rules, false), Named(rules, true) + removed, Named(rules, true))
  {
    var pass := Named(rules, true);
    forall x ensures Ruled(rules, true, x) <==> Under(pass, x) {
      RuledIsUnder(rules, true, x);
    }
    assert forall x :: x in pass ==> Covers(x, x) && Under(pass, x);
  }

  /** The ad-block zone blocks exactly what an include covers and no exclude or removed
      name does, if and only if the includes are sheltered and the removals covered. */
  lemma AdblockMeaningIff(rules: seq<DomainRule>, removed: set<string>, z: Zone)
    requires Compiled(z, Named(rules, false), Named(rules, true) + removed, Named(rules, true))
    requires (forall r :: r in rules ==> Written(r.domain)) && forall d :: d in removed ==> Written(d)
    ensures var inc, exc := Named(rules, false), Named(rules, true) + removed;
            (forall q :: Blocks(z, q) <==> Ruled(rules, false, q) && !Ruled(rules, true, q) && !Under(removed, q)) <==>
            Sheltered(inc, exc, exc) && RemovalsCovered(rules, removed)
  {
    var inc, pass := Named(rules, false), Named(rules, true);
    MeaningIff(z, inc, pass + removed, pass);
    RemovalsEffective(rules, removed);
    forall q
      ensures Under(inc, q) && !Under(pass + removed, q) <==>
              Ruled(rules, false, q) && !Ruled(rules, true, q) && !Under(removed, q)
    {
      RuledIsUnder(rules, false, q);
      RuledIsUnder(rules, true, q);
      UnderEither(pass, removed, q);
    }
  }

  lemma ShelteredByNone(z: Zone, a: string, b: string, e: string)
    requires Compiled(z, {b, e}, {a}, {a}) && |b| > 1 && |e| > 1
    requires DashOf(b, a) && Below(e, a) && !Below(e, b)
    ensures Blocks(z, e) && Under({a}, e)
  {
  }

  /** The hyphen example as a zone: with `a` excluded and `y-a` included, an included
      `x.a` is blocked although it is excluded. */
  lemma HyphenZone(z: Zone, a: string, y: string, x: string)
    requires Compiled(z, {y + "-" + a, x + "." + a}, {a}, {a}) && a != ""
    ensures Blocks(z, x + "." + a) && Under({a}, x + "." + a)
  {
    HyphenShape(a, y, x);
    ShelteredByNone(z, a, y + "-" + a, x + "." + a);
  }
}
