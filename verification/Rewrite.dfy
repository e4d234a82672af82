/** Rewriting a DNS response: the real addresses in it are collected, fakes are
    allocated for them, and the records are rewritten and compacted in place.
    `FilteredUndone` and `Handle` say that the pool undoes the rewrite: looking a
    rewritten address up by fake gives the upstream address. */
module Rewrite {
  import opened Address
  import opened Geometry
  import opened Leases
  import opened Allocation
  import opened Pool
  import opened Convergence
  import Replication
  import Sets

  const SVCB_IPV6HINT := 6

  /** Service parameters; `Raw` is any other parameter, or a hint that did not decode. */
  datatype Param = Ipv4Hint(ips: seq<IPKey>) | Ipv6Hint(ips: seq<IPKey>) | Raw(key: nat, data: seq<nat>)

  datatype RR =
    | A(ip: IPKey, ttl: Uint32)
    | AAAA(ip: IPKey, ttl: Uint32)
    | SVCB(values: seq<Param>, ttl: Uint32)
    | HTTPS(values: seq<Param>, ttl: Uint32)
    | RRSIG(data: seq<nat>)
    | NSEC(data: seq<nat>)
    | NSEC3(data: seq<nat>)
    | Other(data: seq<nat>)

  // ------------------------------------------------------------------ collection

  /** Addresses that get a fake: IPv4 other than 0.0.0.0, and, with IPv6 on, IPv6
      other than :: that is not IPv4-mapped. */
  predicate Wanted4(k: IPKey) {
    IsV4(k) && k != V4Key(0)
  }

  predicate Wanted6(k: IPKey, enableIPv6: bool) {
    enableIPv6 && !IsV4(k) && k != 0
  }

  predicate Mentions4(rr: RR, k: IPKey) {
    match rr
    case A(ip, _) => k == ip
    case SVCB(vs, _) => Hinted4(vs, k)
    case HTTPS(vs, _) => Hinted4(vs, k)
    case _ => false
  }

  predicate Mentions6(rr: RR, k: IPKey) {
    match rr
    case AAAA(ip, _) => k == ip
    case SVCB(vs, _) => Hinted6(vs, k)
    case HTTPS(vs, _) => Hinted6(vs, k)
    case _ => false
  }

  function AddOne(list: seq<IPKey>, k: IPKey, wanted: bool): (r: seq<IPKey>)
    ensures forall x :: x in r <==> x in list || (wanted && x == k)
  {
    if wanted && k !in list then list + [k] else list
  }

  method AddV4(list: seq<IPKey>, ips: seq<IPKey>) returns (r: seq<IPKey>)
    ensures forall x :: x in r <==> x in list || (x in ips && Wanted4(x))
  {
    r := list;
    for i := 0 to |ips|
      invariant forall x :: x in r <==> x in list || (x in ips[..i] && Wanted4(x))
    {
      assert ips[..i + 1] == ips[..i] + [ips[i]];
      r := AddOne(r, ips[i], Wanted4(ips[i]));
    }
    assert ips[..|ips|] == ips;
  }

  method AddV6(list: seq<IPKey>, ips: seq<IPKey>, enableIPv6: bool) returns (r: seq<IPKey>)
    ensures forall x :: x in r <==> x in list || (x in ips && Wanted6(x, enableIPv6))
  {
    r := list;
    for i := 0 to |ips|
      invariant forall x :: x in r <==> x in list || (x in ips[..i] && Wanted6(x, enableIPv6))
    {
      assert ips[..i + 1] == ips[..i] + [ips[i]];
      r := AddOne(r, ips[i], Wanted6(ips[i], enableIPv6));
    }
    assert ips[..|ips|] == ips;
  }

  predicate Hinted4(vs: seq<Param>, k: IPKey) {
    exists v :: v in vs && v.Ipv4Hint? && k in v.ips
  }

  predicate Hinted6(vs: seq<Param>, k: IPKey) {
    exists v :: v in vs && v.Ipv6Hint? && k in v.ips
  }

  method ExtractHints(vs: seq<Param>, v4: seq<IPKey>, v6: seq<IPKey>, enableIPv6: bool)
    returns (r4: seq<IPKey>, r6: seq<IPKey>)
    ensures forall x :: x in r4 <==> x in v4 || (Hinted4(vs, x) && Wanted4(x))
    ensures forall x :: x in r6 <==> x in v6 || (Hinted6(vs, x) && Wanted6(x, enableIPv6))
  {
    r4, r6 := v4, v6;
    for i := 0 to |vs|
      invariant forall x :: x in r4 <==> x in v4 || (Hinted4(vs[..i], x) && Wanted4(x))
      invariant forall x :: x in r6 <==> x in v6 || (Hinted6(vs[..i], x) && Wanted6(x, enableIPv6))
    {
      HintedStep(vs, i);
      match vs[i]
      case Ipv4Hint(ips) => r4 := AddV4(r4, ips);
      case Ipv6Hint(ips) => r6 := AddV6(r6, ips, enableIPv6);
      case Raw(_, _) =>
    }
    assert vs[..|vs|] == vs;
  }

  lemma HintedStep(vs: seq<Param>, i: nat)
    requires i < |vs|
    ensures forall x :: Hinted4(vs[..i + 1], x) <==> Hinted4(vs[..i], x) || (vs[i].Ipv4Hint? && x in vs[i].ips)
    ensures forall x :: Hinted6(vs[..i + 1], x) <==> Hinted6(vs[..i], x) || (vs[i].Ipv6Hint? && x in vs[i].ips)
  {
  }

  ghost predicate Asked4(rrs: seq<RR>, k: IPKey) {
    Wanted4(k) && exists rr :: rr in rrs && Mentions4(rr, k)
  }

  ghost predicate Asked6(rrs: seq<RR>, enableIPv6: bool, k: IPKey) {
    Wanted6(k, enableIPv6) && exists rr :: rr in rrs && Mentions6(rr, k)
  }

  /** `collectIPs`: one record. */
  method CollectOne(rr: RR, v4: seq<IPKey>, v6: seq<IPKey>, enableIPv6: bool)
    returns (r4: seq<IPKey>, r6: seq<IPKey>)
    ensures forall x :: x in r4 <==> x in v4 || (Mentions4(rr, x) && Wanted4(x))
    ensures forall x :: x in r6 <==> x in v6 || (Mentions6(rr, x) && Wanted6(x, enableIPv6))
  {
    r4, r6 := v4, v6;
    match rr
    case A(ip, _) => r4 := AddV4(r4, [ip]);
    case AAAA(ip, _) => r6 := AddV6(r6, [ip], enableIPv6);
    case SVCB(vs, _) => r4, r6 := ExtractHints(vs, v4, v6, enableIPv6);
    case HTTPS(vs, _) => r4, r6 := ExtractHints(vs, v4, v6, enableIPv6);
    case _ =>
  }

  /** The addresses of a section, added to those collected before. */
  method Collect(rrs: seq<RR>, v4: seq<IPKey>, v6: seq<IPKey>, enableIPv6: bool)
    returns (r4: seq<IPKey>, r6: seq<IPKey>)
    ensures forall x :: x in r4 <==> x in v4 || Asked4(rrs, x)
    ensures forall x :: x in r6 <==> x in v6 || Asked6(rrs, enableIPv6, x)
  {
    r4, r6 := v4, v6;
    for i := 0 to |rrs|
      invariant forall x :: x in r4 <==> x in v4 || Asked4(rrs[..i], x)
      invariant forall x :: x in r6 <==> x in v6 || Asked6(rrs[..i], enableIPv6, x)
    {
      AskedAppend(rrs[..i], [rrs[i]], enableIPv6);
      assert rrs[..i + 1] == rrs[..i] + [rrs[i]];
      r4, r6 := CollectOne(rrs[i], r4, r6, enableIPv6);
    }
    assert rrs[..|rrs|] == rrs;
  }

  lemma AskedAppend(a: seq<RR>, b: seq<RR>, enableIPv6: bool)
    ensures forall x :: Asked4(a + b, x) <==> Asked4(a, x) || Asked4(b, x)
    ensures forall x :: Asked6(a + b, enableIPv6, x) <==> Asked6(a, enableIPv6, x) || Asked6(b, enableIPv6, x)
  {
  }

  // ------------------------------------------------------------------- rewriting

  datatype Maps = Maps(v4: map<IPKey, IPKey>, v6: map<IPKey, IPKey>, enableIPv6: bool, maxTTL: Uint32)

  function Capped(ttl: Uint32, maxTTL: Uint32): Uint32 {
    if ttl < maxTTL then ttl else maxTTL
  }

  /** The fakes of those hints that have one, in order. */
  function PatchHints(ips: seq<IPKey>, m: map<IPKey, IPKey>): seq<IPKey> {
    if ips == [] then []
    else
      var k := ips[|ips| - 1];
      PatchHints(ips[..|ips| - 1], m) + if k in m then [m[k]] else []
  }

  predicate DropsParam(v: Param, enableIPv6: bool) {
    !enableIPv6 && (v.Ipv6Hint? || (v.Raw? && v.key == SVCB_IPV6HINT))
  }

  function PatchParam(v: Param, m: Maps): Param {
    match v
    case Ipv4Hint(ips) => Ipv4Hint(PatchHints(ips, m.v4))
    case Ipv6Hint(ips) => Ipv6Hint(PatchHints(ips, m.v6))
    case Raw(_, _) => v
  }

  function PatchValues(vs: seq<Param>, m: Maps): seq<Param> {
    if vs == [] then []
    else
      var v := vs[|vs| - 1];
      PatchValues(vs[..|vs| - 1], m) + if DropsParam(v, m.enableIPv6) then [] else [PatchParam(v, m)]
  }

  predicate Drops(rr: RR, enableIPv6: bool) {
    rr.RRSIG? || rr.NSEC? || rr.NSEC3? || (rr.AAAA? && !enableIPv6)
  }

  function Patch(rr: RR, m: Maps): RR {
    match rr
    case A(ip, ttl) => if ip in m.v4 then A(m.v4[ip], Capped(ttl, m.maxTTL)) else rr
    case AAAA(ip, ttl) => if ip in m.v6 then AAAA(m.v6[ip], Capped(ttl, m.maxTTL)) else rr
    case SVCB(vs, ttl) => SVCB(PatchValues(vs, m), Capped(ttl, m.maxTTL))
    case HTTPS(vs, ttl) => HTTPS(PatchValues(vs, m), Capped(ttl, m.maxTTL))
    case _ => rr
  }

  function Filtered(rrs: seq<RR>, m: Maps): seq<RR> {
    if rrs == [] then []
    else
      var rr := rrs[|rrs| - 1];
      Filtered(rrs[..|rrs| - 1], m) + if Drops(rr, m.enableIPv6) then [] else [Patch(rr, m)]
  }

  method PatchHintList(ips: seq<IPKey>, m: map<IPKey, IPKey>) returns (newHints: seq<IPKey>)
    ensures newHints == PatchHints(ips, m)
  {
    newHints := [];
    for i := 0 to |ips|
      invariant newHints == PatchHints(ips[..i], m)
    {
      assert ips[..i + 1][..i] == ips[..i];
      if ips[i] in m {
        newHints := newHints + [m[ips[i]]];
      }
    }
    assert ips[..|ips|] == ips;
  }

  method PatchSVCBValues(vs: seq<Param>, m: Maps) returns (newValues: seq<Param>)
    ensures newValues == PatchValues(vs, m)
  {
    newValues := [];
    for i := 0 to |vs|
      invariant newValues == PatchValues(vs[..i], m)
    {
      assert vs[..i + 1][..i] == vs[..i];
      match vs[i]
      case Ipv4Hint(ips) =>
        var hints := PatchHintList(ips, m.v4);
        newValues := newValues + [Ipv4Hint(hints)];
      case Ipv6Hint(ips) =>
        if m.enableIPv6 {
          var hints := PatchHintList(ips, m.v6);
          newValues := newValues + [Ipv6Hint(hints)];
        }
      case Raw(key, _) =>
        if key != SVCB_IPV6HINT || m.enableIPv6 {
          newValues := newValues + [vs[i]];
        }
    }
    assert vs[..|vs|] == vs;
  }

  method PatchRecord(rr: RR, m: Maps) returns (out: RR)
    ensures out == Patch(rr, m)
  {
    out := rr;
    match rr
    case A(ip, ttl) =>
      if ip in m.v4 { out := A(m.v4[ip], Capped(ttl, m.maxTTL)); }
    case AAAA(ip, ttl) =>
      if ip in m.v6 { out := AAAA(m.v6[ip], Capped(ttl, m.maxTTL)); }
    case SVCB(vs, ttl) =>
      var values := PatchSVCBValues(vs, m);
      out := SVCB(values, Capped(ttl, m.maxTTL));
    case HTTPS(vs, ttl) =>
      var values := PatchSVCBValues(vs, m);
      out := HTTPS(values, Capped(ttl, m.maxTTL));
    case _ =>
  }

  /** `filterRRs`: rewrites and compacts a section in the array it reads. */
  method FilterRRs(rrs: array<RR>, m: Maps) returns (n: nat)
    modifies rrs
    ensures n <= rrs.Length
    ensures rrs[..n] == Filtered(old(rrs[..]), m)
  {
    ghost var s := rrs[..];
    n := 0;
    for i := 0 to rrs.Length
      invariant n <= i
      invariant rrs[..n] == Filtered(s[..i], m)
      invariant forall k :: i <= k < rrs.Length ==> rrs[k] == s[k]
    {
      assert s[..i + 1][..i] == s[..i];
      if !Drops(rrs[i], m.enableIPv6) {
        var out := PatchRecord(rrs[i], m);
        rrs[n] := out;
        n := n + 1;
      }
    }
    assert s[..rrs.Length] == s;
  }

  // ------------------------------------------------ what the client may rely on

  /** The lesser of the two times to live. */
  predicate Least(sent: Uint32, ttl: Uint32, maxTTL: Uint32) {
    sent <= ttl && sent <= maxTTL && (sent == ttl || sent == maxTTL)
  }

  /** The fakes lead back, in order, to the hints that are IPv4 and not 0.0.0.0, or IPv6,
      not IPv4-mapped and not ::. */
  ghost predicate HintsSent(t: Table, ips: seq<IPKey>, fakes: seq<IPKey>, v6: bool) {
    if ips == [] then fakes == []
    else
      var init, last := ips[..|ips| - 1], ips[|ips| - 1];
      if (if v6 then last != 0 && !(0xffff_0000_0000 <= last <= 0xffff_ffff_ffff)
          else 0xffff_0000_0000 < last <= 0xffff_ffff_ffff)
      then fakes != [] && MapsBack(t, fakes[|fakes| - 1], last) && HintsSent(t, init, fakes[..|fakes| - 1], v6)
      else HintsSent(t, init, fakes, v6)
  }

  ghost predicate ParamSent(t: Table, before: Param, after: Param) {
    match before
    case Ipv4Hint(ips) => after.Ipv4Hint? && HintsSent(t, ips, after.ips, false)
    case Ipv6Hint(ips) => after.Ipv6Hint? && HintsSent(t, ips, after.ips, true)
    case Raw(_, _) => after == before
  }

  /** All parameters, in order, but with IPv6 off not those with key 6. */
  ghost predicate ParamsSent(t: Table, before: seq<Param>, after: seq<Param>, enableIPv6: bool) {
    if before == [] then after == []
    else
      var init, last := before[..|before| - 1], before[|before| - 1];
      if !enableIPv6 && (last.Ipv6Hint? || (last.Raw? && last.key == 6))
      then ParamsSent(t, init, after, enableIPv6)
      else after != [] && ParamSent(t, last, after[|after| - 1]) && ParamsSent(t, init, after[..|after| - 1], enableIPv6)
  }

  /** The pool leads from the record sent to the record received: a usable address maps
      back, hints likewise, times to live are capped, everything else is as it was. */
  ghost predicate RecordSent(t: Table, before: RR, after: RR, enableIPv6: bool, maxTTL: Uint32) {
    match before
    case A(ip, ttl) =>
      if 0xffff_0000_0000 < ip <= 0xffff_ffff_ffff
      then after.A? && Least(after.ttl, ttl, maxTTL) && MapsBack(t, after.ip, ip)
      else after == before
    case AAAA(ip, ttl) =>
      if ip != 0 && !(0xffff_0000_0000 <= ip <= 0xffff_ffff_ffff)
      then after.AAAA? && Least(after.ttl, ttl, maxTTL) && MapsBack(t, after.ip, ip)
      else after == before
    case SVCB(vs, ttl) =>
      after.SVCB? && Least(after.ttl, ttl, maxTTL) && ParamsSent(t, vs, after.values, enableIPv6)
    case HTTPS(vs, ttl) =>
      after.HTTPS? && Least(after.ttl, ttl, maxTTL) && ParamsSent(t, vs, after.values, enableIPv6)
    case _ => after == before
  }

  /** All records, in order, but no RRSIG, NSEC or NSEC3, and with IPv6 off no AAAA. */
  ghost predicate SectionSent(t: Table, before: seq<RR>, after: seq<RR>, enableIPv6: bool, maxTTL: Uint32) {
    if before == [] then after == []
    else
      var init, last := before[..|before| - 1], before[|before| - 1];
      if last.RRSIG? || last.NSEC? || last.NSEC3? || (!enableIPv6 && last.AAAA?)
      then SectionSent(t, init, after, enableIPv6, maxTTL)
      else
        && after != [] && RecordSent(t, last, after[|after| - 1], enableIPv6, maxTTL)
        && SectionSent(t, init, after[..|after| - 1], enableIPv6, maxTTL)
  }

  /** The section has `k` as an address or hint that gets a fake. */
  ghost predicate AsksFor(rr: RR, enableIPv6: bool, k: IPKey) {
    var usable4, usable6 := 0xffff_0000_0000 < k <= 0xffff_ffff_ffff, enableIPv6 && k != 0 && !(0xffff_0000_0000 <= k <= 0xffff_ffff_ffff);
    match rr
    case A(ip, _) => usable4 && k == ip
    case AAAA(ip, _) => usable6 && k == ip
    case SVCB(vs, _) => exists v :: v in vs && ((usable4 && v.Ipv4Hint? && k in v.ips) || (usable6 && v.Ipv6Hint? && k in v.ips))
    case HTTPS(vs, _) => exists v :: v in vs && ((usable4 && v.Ipv4Hint? && k in v.ips) || (usable6 && v.Ipv6Hint? && k in v.ips))
    case _ => false
  }

  ghost predicate AskedFor(rrs: seq<RR>, enableIPv6: bool, k: IPKey) {
    exists rr :: rr in rrs && AsksFor(rr, enableIPv6, k)
  }

  lemma AskedIsAsked(rrs: seq<RR>, enableIPv6: bool, k: IPKey)
    ensures AskedFor(rrs, enableIPv6, k) <==> Asked4(rrs, k) || Asked6(rrs, enableIPv6, k)
  {
    if AskedFor(rrs, enableIPv6, k) {
      var rr :| rr in rrs && AsksFor(rr, enableIPv6, k);
      assert (Wanted4(k) && Mentions4(rr, k)) || (Wanted6(k, enableIPv6) && Mentions6(rr, k));
    }
    if Asked4(rrs, k) {
      var rr :| rr in rrs && Mentions4(rr, k);
      assert AsksFor(rr, enableIPv6, k);
    }
    if Asked6(rrs, enableIPv6, k) {
      var rr :| rr in rrs && Mentions6(rr, k);
      assert AsksFor(rr, enableIPv6, k);
    }
  }

  /** The kinds of records, and how many of a kind there are. */
  function Kind(rr: RR): nat {
    match rr
    case A(_, _) => 0
    case AAAA(_, _) => 1
    case SVCB(_, _) => 2
    case HTTPS(_, _) => 3
    case RRSIG(_) => 4
    case NSEC(_) => 5
    case NSEC3(_) => 6
    case Other(_) => 7
  }

  function Count(rrs: seq<RR>, kind: nat): nat {
    if rrs == [] then 0 else Count(rrs[..|rrs| - 1], kind) + if Kind(rrs[|rrs| - 1]) == kind then 1 else 0
  }

  /** As many A, SVCB, HTTPS and other records are sent as received, and AAAA with IPv6
      on; no RRSIG, NSEC or NSEC3, and no AAAA with IPv6 off. */
  lemma {:induction false} KindsSent(t: Table, before: seq<RR>, after: seq<RR>, enableIPv6: bool, maxTTL: Uint32)
    requires SectionSent(t, before, after, enableIPv6, maxTTL)
    ensures Count(after, 0) == Count(before, 0) && Count(after, 2) == Count(before, 2)
    ensures Count(after, 3) == Count(before, 3) && Count(after, 7) == Count(before, 7)
    ensures Count(after, 1) == if enableIPv6 then Count(before, 1) else 0
    ensures Count(after, 4) == Count(after, 5) == Count(after, 6) == 0
    decreases |before|
  {
    if before != [] {
      var init, last := before[..|before| - 1], before[|before| - 1];
      if last.RRSIG? || last.NSEC? || last.NSEC3? || (!enableIPv6 && last.AAAA?) {
        KindsSent(t, init, after, enableIPv6, maxTTL);
      } else {
        KindsSent(t, init, after[..|after| - 1], enableIPv6, maxTTL);
      }
    }
  }

  /** The maps answer exactly what a section asks for, and the pool holds the answers. */
  ghost predicate Serves(t: Table, m: Maps, rrs: seq<RR>) {
    && (forall k :: k in m.v4 ==> Wanted4(k) && MapsBack(t, m.v4[k], k))
    && (forall k :: k in m.v6 ==> Wanted6(k, m.enableIPv6) && MapsBack(t, m.v6[k], k))
    && (forall k :: Asked4(rrs, k) ==> k in m.v4)
    && (forall k :: Asked6(rrs, m.enableIPv6, k) ==> k in m.v6)
  }

  lemma {:induction false} HintsServed4(t: Table, ips: seq<IPKey>, m: map<IPKey, IPKey>)
    requires forall k :: k in m ==> Wanted4(k) && MapsBack(t, m[k], k)
    requires forall k :: k in ips && Wanted4(k) ==> k in m
    ensures HintsSent(t, ips, PatchHints(ips, m), false)
  {
    if ips != [] {
      var init, last := ips[..|ips| - 1], ips[|ips| - 1];
      assert last in ips;
      HintsServed4(t, init, m);
      assert PatchHints(ips, m)[..|PatchHints(init, m)|] == PatchHints(init, m);
      if last !in m { assert PatchHints(ips, m) == PatchHints(init, m); }
    }
  }

  lemma {:induction false} HintsServed6(t: Table, ips: seq<IPKey>, m: map<IPKey, IPKey>)
    requires forall k :: k in m ==> Wanted6(k, true) && MapsBack(t, m[k], k)
    requires forall k :: k in ips && Wanted6(k, true) ==> k in m
    ensures HintsSent(t, ips, PatchHints(ips, m), true)
  {
    if ips != [] {
      var init, last := ips[..|ips| - 1], ips[|ips| - 1];
      assert last in ips;
      HintsServed6(t, init, m);
      assert PatchHints(ips, m)[..|PatchHints(init, m)|] == PatchHints(init, m);
      if last !in m { assert PatchHints(ips, m) == PatchHints(init, m); }
    }
  }

  /** The hints of `vs` are answered. */
  ghost predicate ServesParams(t: Table, m: Maps, vs: seq<Param>) {
    && (forall k :: k in m.v4 ==> Wanted4(k) && MapsBack(t, m.v4[k], k))
    && (forall k :: k in m.v6 ==> Wanted6(k, m.enableIPv6) && MapsBack(t, m.v6[k], k))
    && (forall k :: Hinted4(vs, k) && Wanted4(k) ==> k in m.v4)
    && (forall k :: Hinted6(vs, k) && Wanted6(k, m.enableIPv6) ==> k in m.v6)
  }

  lemma ParamServed(t: Table, m: Maps, v: Param)
    requires ServesParams(t, m, [v]) && !DropsParam(v, m.enableIPv6)
    ensures ParamSent(t, v, PatchParam(v, m))
  {
    assert v in [v];
    match v
    case Ipv4Hint(ips) =>
      assert forall k :: k in ips ==> Hinted4([v], k);
      HintsServed4(t, ips, m.v4);
    case Ipv6Hint(ips) =>
      assert forall k :: k in ips ==> Hinted6([v], k);
      HintsServed6(t, ips, m.v6);
    case Raw(_, _) =>
  }

  lemma {:induction false} ParamsServed(t: Table, m: Maps, vs: seq<Param>)
    requires ServesParams(t, m, vs)
    ensures ParamsSent(t, vs, PatchValues(vs, m), m.enableIPv6)
  {
    if vs != [] {
      var i := |vs| - 1;
      HintedStep(vs, i);
      assert vs[..i + 1] == vs;
      ParamsServed(t, m, vs[..i]);
      HintedOne(vs[i]);
      if !DropsParam(vs[i], m.enableIPv6) {
        ParamServed(t, m, vs[i]);
        assert PatchValues(vs, m)[..|PatchValues(vs[..i], m)|] == PatchValues(vs[..i], m);
      } else {
        assert PatchValues(vs, m) == PatchValues(vs[..i], m);
      }
    }
  }

  lemma HintedOne(v: Param)
    ensures forall x :: Hinted4([v], x) <==> v.Ipv4Hint? && x in v.ips
    ensures forall x :: Hinted6([v], x) <==> v.Ipv6Hint? && x in v.ips
  {
  }

  lemma RecordServed(t: Table, m: Maps, rr: RR)
    requires Serves(t, m, [rr]) && !Drops(rr, m.enableIPv6)
    ensures RecordSent(t, rr, Patch(rr, m), m.enableIPv6, m.maxTTL)
  {
    assert rr in [rr];
    assert forall k :: Wanted4(k) && Mentions4(rr, k) ==> Asked4([rr], k);
    assert forall k :: Wanted6(k, m.enableIPv6) && Mentions6(rr, k) ==> Asked6([rr], m.enableIPv6, k);
    match rr
    case SVCB(vs, _) => ParamsServed(t, m, vs);
    case HTTPS(vs, _) => ParamsServed(t, m, vs);
    case A(ip, _) => assert Wanted4(ip) ==> Mentions4(rr, ip);
    case AAAA(ip, _) => assert Wanted6(ip, m.enableIPv6) ==> Mentions6(rr, ip);
    case _ =>
  }

  /** Every section rewritten with maps that serve it is undone by the pool. */
  lemma {:induction false} FilteredUndone(t: Table, m: Maps, rrs: seq<RR>)
    requires Serves(t, m, rrs)
    ensures SectionSent(t, rrs, Filtered(rrs, m), m.enableIPv6, m.maxTTL)
  {
    if rrs != [] {
      var init, last := rrs[..|rrs| - 1], rrs[|rrs| - 1];
      AskedAppend(init, [last], m.enableIPv6);
      assert rrs == init + [last];
      FilteredUndone(t, m, init);
      if !Drops(last, m.enableIPv6) {
        RecordServed(t, m, last);
        assert Filtered(rrs, m)[..|Filtered(init, m)|] == Filtered(init, m);
      } else {
        assert Filtered(rrs, m) == Filtered(init, m);
      }
    }
  }

  /** Different reals are sent as different fakes. */
  lemma DistinctStay(t: Table, f1: IPKey, r1: IPKey, f2: IPKey, r2: IPKey)
    requires MapsBack(t, f1, r1) && MapsBack(t, f2, r2) && Injective(t)
    ensures r1 == r2 <==> f1 == f2
  {
  }

  // ----------------------------------------------------------- the whole request

  /** Both families, with the rollback when IPv6 fails after IPv4. */
  method AllocateAnswer(pool: IPPool, r4: seq<IPKey>, r6: seq<IPKey>, now4: int, now6: int,
                        wall4: IPKey -> Uint64, wall6: IPKey -> Uint64)
    returns (m4: map<IPKey, IPKey>, m6: map<IPKey, IPKey>,
             new4: map<IPKey, NewMapping>, new6: map<IPKey, NewMapping>, ok: bool)
    requires pool.Valid()
    modifies pool, pool.shards
    ensures pool.Valid()
    ensures AllocateBoth(pool.RequestOf(false, now4, wall4), pool.RequestOf(true, now6, wall6),
                         old(pool.leases), old(pool.hlc), r4, r6)
            == Answer(pool.leases, pool.hlc, m4, m6, new4, new6, ok)
  {
    m4, m6, new4, new6 := map[], map[], map[], map[];
    if |r4| > 0 {
      m4, new4, ok := pool.GetFakeIPsForReals(r4, false, now4, wall4);
      if !ok {
        return map[], map[], map[], map[], false;
      }
    }
    if |r6| > 0 {
      m6, new6, ok := pool.GetFakeIPsForReals(r6, true, now6, wall6);
      if !ok {
        pool.Undo(new4);
        return map[], map[], map[], map[], false;
      }
    }
    ok := true;
  }

  ghost predicate Collected(rrs: seq<RR>, enableIPv6: bool, r4: seq<IPKey>, r6: seq<IPKey>) {
    && (forall x :: x in r4 <==> Asked4(rrs, x))
    && (forall x :: x in r6 <==> Asked6(rrs, enableIPv6, x))
  }

  /** Allocation for exactly what a response asks makes the maps serve it. */
  lemma AnswerServes(q4: Request, q6: Request, t: Table, clock: Uint64, r4: seq<IPKey>, r6: seq<IPKey>,
                     a: Answer, m: Maps, rrs: seq<RR>)
    requires ValidRequest(q4) && ValidRequest(q6) && Injective(t) && q4.now <= q6.now
    requires Collected(rrs, m.enableIPv6, r4, r6)
    requires a == AllocateBoth(q4, q6, t, clock, r4, r6) && m.v4 == a.v4 && m.v6 == a.v6
    ensures Injective(a.table) && LiveKept(t, a.table, q6.now)
    ensures forall r :: !AskedFor(rrs, m.enableIPv6, r) ==> (r in a.table <==> r in t) && (r in t ==> a.table[r] == t[r])
    ensures a.ok ==> Serves(a.table, m, rrs)
    ensures !a.ok ==> forall r :: r in a.table ==> SameLease(t, a.table, r)
    ensures a.ok ==> Reported(t, a.table, a.new4, q4.now) && Reported(t, a.table, a.new6, q6.now)
    ensures a.ok ==> forall r :: r in a.table && r !in a.new4 && r !in a.new6 ==> SameLease(t, a.table, r)
  {
    AnswerAllOrNothing(q4, q6, t, clock, r4, r6);
    forall r | !AskedFor(rrs, m.enableIPv6, r) ensures (r in a.table <==> r in t) && (r in t ==> a.table[r] == t[r]) {
      AskedIsAsked(rrs, m.enableIPv6, r);
      assert r !in Members(r4) + Members(r6);
    }
    if a.ok {
      forall k | k in m.v4 ensures Wanted4(k) && MapsBack(a.table, m.v4[k], k) {
        assert k in a.v4.Keys;
        assert Answered(a.table, a.v4, k, q4.now);
      }
      forall k | k in m.v6 ensures Wanted6(k, m.enableIPv6) && MapsBack(a.table, m.v6[k], k) {
        assert k in a.v6.Keys;
        assert Answered(a.table, a.v6, k, q6.now);
      }
      assert forall k :: k in r4 ==> k in a.v4.Keys;
      assert forall k :: k in r6 ==> k in a.v6.Keys;
    }
  }

  /** The kernel map after the mappings of an answer have been entered. */
  ghost predicate Programmed(kernel: map<IPKey, IPKey>, after: map<IPKey, IPKey>,
                             v4: map<IPKey, IPKey>, v6: map<IPKey, IPKey>)
  {
    && (forall k :: k in v4 ==> v4[k] in after && after[v4[k]] == k)
    && (forall k :: k in v6 ==> v6[k] in after && after[v6[k]] == k)
    && (forall f :: f in kernel && (forall k :: k in v4 ==> v4[k] != f) && (forall k :: k in v6 ==> v6[k] != f) ==>
          f in after && after[f] == kernel[f])
  }

  /** A kernel map that follows the pool follows it again once the answer's mappings
      are entered, so traffic to every fake sent out reaches its real. */
  lemma KernelFollowsAnswer(q4: Request, q6: Request, t: Table, clock: Uint64, r4: seq<IPKey>, r6: seq<IPKey>,
                            kernel: map<IPKey, IPKey>, after: map<IPKey, IPKey>)
    requires ValidRequest(q4) && ValidRequest(q6) && Injective(t) && q4.now <= q6.now
    requires forall r :: r in r4 ==> r !in r6
    requires Replication.Follows(kernel, t)
    requires var a := AllocateBoth(q4, q6, t, clock, r4, r6); Programmed(kernel, after, a.v4, a.v6)
    ensures Replication.Follows(after, AllocateBoth(q4, q6, t, clock, r4, r6).table)
  {
    var a := AllocateBoth(q4, q6, t, clock, r4, r6);
    AnswerAllOrNothing(q4, q6, t, clock, r4, r6);
    forall r | r in a.table ensures a.table[r].fakeIP in after && after[a.table[r].fakeIP] == r {
      if a.ok && r in r4 {
        assert Answered(a.table, a.v4, r, q4.now);
      } else if a.ok && r in r6 {
        assert Answered(a.table, a.v6, r, q6.now);
      } else {
        OldLeaseProgrammed(q4, q6, t, clock, r4, r6, r);
      }
    }
  }

  lemma OldLeaseProgrammed(q4: Request, q6: Request, t: Table, clock: Uint64, r4: seq<IPKey>, r6: seq<IPKey>, r: IPKey)
    requires ValidRequest(q4) && ValidRequest(q6) && Injective(t) && q4.now <= q6.now
    requires forall r :: r in r4 ==> r !in r6
    requires var a := AllocateBoth(q4, q6, t, clock, r4, r6); r in a.table && (!a.ok || (r !in r4 && r !in r6))
    ensures var a := AllocateBoth(q4, q6, t, clock, r4, r6);
            && r in t && t[r].fakeIP == a.table[r].fakeIP
            && (forall k :: k in a.v4 ==> a.v4[k] != t[r].fakeIP) && (forall k :: k in a.v6 ==> a.v6[k] != t[r].fakeIP)
  {
    var a := AllocateBoth(q4, q6, t, clock, r4, r6);
    AnswerAllOrNothing(q4, q6, t, clock, r4, r6);
    if a.ok {
      assert r !in Members(r4) + Members(r6);
      forall k | k in a.v4 ensures a.v4[k] != t[r].fakeIP {
        assert k in a.v4.Keys && Answered(a.table, a.v4, k, q4.now);
      }
      forall k | k in a.v6 ensures a.v6[k] != t[r].fakeIP {
        assert k in a.v6.Keys && Answered(a.table, a.v6, k, q6.now);
      }
    } else {
      assert SameLease(t, a.table, r);
    }
  }

  lemma ServesPart(t: Table, m: Maps, a: seq<RR>, b: seq<RR>)
    requires Serves(t, m, a + b)
    ensures Serves(t, m, a) && Serves(t, m, b)
  {
    AskedAppend(a, b, m.enableIPv6);
  }

  /** A response from upstream, handled without interference.  On success the pool
      leads from every section sent back to the section received; on failure the
      sections are as they were, no lease is new and no live lease is lost. */
  method Handle(pool: IPPool, answer: array<RR>, ns: array<RR>, extra: array<RR>, enableIPv6: bool, maxTTL: Uint32,
                now4: int, now6: int, wall4: IPKey -> Uint64, wall6: IPKey -> Uint64)
    returns (na: nat, nn: nat, ne: nat, toBroadcast: seq<Mapping>, ok: bool)
    requires pool.Valid() && now4 <= now6 && answer != ns && ns != extra && answer != extra
    modifies pool, pool.shards, answer, ns, extra
    ensures pool.Valid() && LiveKept(old(pool.leases), pool.leases, now6)
    ensures na <= answer.Length && nn <= ns.Length && ne <= extra.Length
    ensures forall r :: !AskedFor(old(answer[..] + ns[..] + extra[..]), enableIPv6, r) ==>
              (r in pool.leases <==> r in old(pool.leases)) && (r in pool.leases ==> pool.leases[r] == old(pool.leases)[r])
    ensures ok ==> SectionSent(pool.leases, old(answer[..]), answer[..na], enableIPv6, maxTTL)
    ensures ok ==> SectionSent(pool.leases, old(ns[..]), ns[..nn], enableIPv6, maxTTL)
    ensures ok ==> SectionSent(pool.leases, old(extra[..]), extra[..ne], enableIPv6, maxTTL)
    ensures !ok ==> answer[..] == old(answer[..]) && ns[..] == old(ns[..]) && extra[..] == old(extra[..])
    ensures !ok ==> forall r :: r in pool.leases ==> SameLease(old(pool.leases), pool.leases, r)
    ensures forall m :: m in toBroadcast ==> Holds(pool.leases, m) && !Live(old(pool.leases), m.realIP, now6)
    ensures forall r :: r in pool.leases && !SameLease(old(pool.leases), pool.leases, r) ==>
              Mapping(pool.leases[r].fakeIP, r, pool.leases[r].version) in toBroadcast
  {
    ghost var a, b, c := answer[..], ns[..], extra[..];
    var r4, r6 := CollectResponse(answer[..], ns[..], extra[..], enableIPv6);
    ghost var t, clock := pool.leases, pool.hlc;
    Sharded.RepresentsInjective(pool.View(), pool.leases, pool.h);
    var m4, m6, new4, new6;
    m4, m6, new4, new6, ok := AllocateAnswer(pool, r4, r6, now4, now6, wall4, wall6);
    var m := Maps(m4, m6, enableIPv6, maxTTL);
    AnswerServes(pool.RequestOf(false, now4, wall4), pool.RequestOf(true, now6, wall6), t, clock, r4, r6,
                 Answer(pool.leases, pool.hlc, m4, m6, new4, new6, ok), m, a + b + c);
    if !ok {
      return answer.Length, ns.Length, extra.Length, [], false;
    }
    toBroadcast := ListNew(new4, []);
    toBroadcast := ListNew(new6, toBroadcast);
    BroadcastExact(t, pool.leases, new4, new6, toBroadcast, now4, now6);
    na, nn, ne := FilterSections(answer, ns, extra, m, pool.leases);
  }

  /** What is listed is new and held, and what has changed is listed. */
  lemma BroadcastExact(t: Table, u: Table, new4: map<IPKey, NewMapping>, new6: map<IPKey, NewMapping>, list: seq<Mapping>,
                       now4: int, now6: int)
    requires now4 <= now6 && Reported(t, u, new4, now4) && Reported(t, u, new6, now6)
    requires forall r :: r in u && r !in new4 && r !in new6 ==> SameLease(t, u, r)
    requires forall m :: m in list <==>
               (m.realIP in new4 && new4[m.realIP] == NewMapping(m.fakeIP, m.version))
               || (m.realIP in new6 && new6[m.realIP] == NewMapping(m.fakeIP, m.version))
    ensures forall m :: m in list ==> Holds(u, m) && !Live(t, m.realIP, now6)
    ensures forall r :: r in u && !SameLease(t, u, r) ==> Mapping(u[r].fakeIP, r, u[r].version) in list
  {
  }

  /** The new mappings, added to those listed before. */
  method ListNew(created: map<IPKey, NewMapping>, before: seq<Mapping>) returns (list: seq<Mapping>)
    ensures forall m :: m in list <==>
              m in before || (m.realIP in created && created[m.realIP] == NewMapping(m.fakeIP, m.version))
  {
    list := before;
    var keys := created.Keys;
    while keys != {}
      invariant keys <= created.Keys
      invariant forall m :: m in list <==>
        m in before || (m.realIP in created && m.realIP !in keys && created[m.realIP] == NewMapping(m.fakeIP, m.version))
      decreases |keys|
    {
      ghost var some := Sets.Pick(keys);
      var r :| r in keys;
      list := list + [Mapping(created[r].fakeIP, r, created[r].version)];
      keys := keys - {r};
    }
  }

  method FilterSections(answer: array<RR>, ns: array<RR>, extra: array<RR>, m: Maps, ghost t: Table)
    returns (na: nat, nn: nat, ne: nat)
    requires answer != ns && ns != extra && answer != extra && Serves(t, m, answer[..] + ns[..] + extra[..])
    modifies answer, ns, extra
    ensures na <= answer.Length && nn <= ns.Length && ne <= extra.Length
    ensures SectionSent(t, old(answer[..]), answer[..na], m.enableIPv6, m.maxTTL)
    ensures SectionSent(t, old(ns[..]), ns[..nn], m.enableIPv6, m.maxTTL)
    ensures SectionSent(t, old(extra[..]), extra[..ne], m.enableIPv6, m.maxTTL)
  {
    ServesPart(t, m, answer[..] + ns[..], extra[..]);
    ServesPart(t, m, answer[..], ns[..]);
    FilteredUndone(t, m, answer[..]);
    FilteredUndone(t, m, ns[..]);
    FilteredUndone(t, m, extra[..]);
    na := FilterRRs(answer, m);
    nn := FilterRRs(ns, m);
    ne := FilterRRs(extra, m);
  }

  /** The addresses of the three sections. */
  method CollectResponse(answer: seq<RR>, ns: seq<RR>, extra: seq<RR>, enableIPv6: bool)
    returns (r4: seq<IPKey>, r6: seq<IPKey>)
    ensures Collected(answer + ns + extra, enableIPv6, r4, r6)
  {
    r4, r6 := Collect(answer, [], [], enableIPv6);
    r4, r6 := Collect(ns, r4, r6, enableIPv6);
    r4, r6 := Collect(extra, r4, r6, enableIPv6);
    AskedAppend(answer, ns, enableIPv6);
    AskedAppend(answer + ns, extra, enableIPv6);
  }
}
