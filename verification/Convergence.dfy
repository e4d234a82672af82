/** What the versioned merge guarantees when the same mappings reach nodes in
    different orders.

    The engine promises that versions resolve conflicts between nodes.  Full
    order independence is false (`OrderMatters`); `OrderIndependentIff` gives the
    exact condition on the set of mappings, and `SurvivesIff` says which mappings
    every delivery order leaves in place. */
module Convergence {
  import opened Address
  import opened Leases

  datatype Mapping = Mapping(fakeIP: IPKey, realIP: IPKey, version: Uint64)

  /** One delivery: the mapping and the expiry its receiver gives it. */
  datatype Delivery = Delivery(m: Mapping, expiresAt: int)

  function Apply(t: Table, d: Delivery): Table {
    Merge(t, d.m.realIP, d.m.fakeIP, d.m.version, d.expiresAt)
  }

  /** The receive loop's view of a fake's version: 0 when the fake is not held. */
  ghost function VersionOf(t: Table, fakeIP: IPKey): Uint64 {
    if exists r :: r in t && t[r].fakeIP == fakeIP
    then var r :| r in t && t[r].fakeIP == fakeIP; t[r].version
    else 0
  }

  /** A received mapping is dropped before the merge when its fake already has a
      higher version. */
  ghost function Receive(t: Table, d: Delivery): Table {
    if VersionOf(t, d.m.fakeIP) > d.m.version then t else Apply(t, d)
  }

  function DeliverAll(t: Table, ds: seq<Delivery>): Table {
    if ds == [] then t else Apply(DeliverAll(t, ds[..|ds| - 1]), ds[|ds| - 1])
  }

  ghost predicate Holds(t: Table, m: Mapping) {
    m.realIP in t && t[m.realIP].fakeIP == m.fakeIP && t[m.realIP].version == m.version
  }

  /** Same reals, fakes and versions; expiries are local to a node. */
  ghost predicate SameMappings(a: Table, b: Table) {
    forall m :: Holds(a, m) <==> Holds(b, m)
  }

  function Sent(ds: seq<Delivery>): set<Mapping> {
    set d | d in ds :: d.m
  }

  function Messages(ds: seq<Delivery>): seq<Mapping> {
    seq(|ds|, i requires 0 <= i < |ds| => ds[i].m)
  }

  /** `ds` delivers each mapping of `D` exactly once. */
  ghost predicate Permutes(ds: seq<Delivery>, D: set<Mapping>) {
    multiset(Messages(ds)) == multiset(D)
  }

  // -------------------------------------------------------------- the conflict

  /** `n` displaces `m` when delivered after it. */
  predicate Beats(n: Mapping, m: Mapping) {
    || (n.fakeIP == m.fakeIP && Later(n.version, n.realIP, m.version, m.realIP))
    || (n.realIP == m.realIP && n.fakeIP != m.fakeIP && Later(n.version, n.fakeIP, m.version, m.fakeIP))
  }

  predicate Conflict(n: Mapping, m: Mapping) {
    n.fakeIP == m.fakeIP || n.realIP == m.realIP
  }

  ghost predicate BeatenBy(U: set<Mapping>, m: Mapping) {
    exists u :: u in U && Beats(u, m)
  }

  ghost predicate Unbeaten(D: set<Mapping>, m: Mapping) {
    m in D && forall n :: n in D ==> !Beats(n, m)
  }

  /** Of two conflicting mappings one beats the other. */
  lemma ConflictDecided(n: Mapping, m: Mapping)
    requires Conflict(n, m) && n != m
    ensures Beats(n, m) || Beats(m, n)
  {
  }

  /** What one merge does, read off the mappings held. */
  lemma MergeHolds(t: Table, d: Delivery)
    requires Injective(t)
    ensures Accepts(t, d.m.realIP, d.m.fakeIP, d.m.version) <==>
            forall n :: Holds(t, n) && Conflict(n, d.m) ==> Beats(d.m, n)
    ensures forall n :: Holds(Apply(t, d), n) <==>
              if Accepts(t, d.m.realIP, d.m.fakeIP, d.m.version)
              then n == d.m || (Holds(t, n) && !Conflict(n, d.m))
              else Holds(t, n)
  {
    var m := d.m;
    if forall n :: Holds(t, n) && Conflict(n, m) ==> Beats(m, n) {
      forall r | r in t && t[r].fakeIP == m.fakeIP ensures Later(m.version, m.realIP, t[r].version, r) {
        assert Holds(t, Mapping(m.fakeIP, r, t[r].version));
      }
      if m.realIP in t && t[m.realIP].fakeIP != m.fakeIP {
        assert Holds(t, Mapping(t[m.realIP].fakeIP, m.realIP, t[m.realIP].version));
      }
    }
  }

  lemma {:induction false} DeliverInjective(ds: seq<Delivery>)
    ensures Injective(DeliverAll(map[], ds))
  {
    if ds != [] {
      DeliverInjective(ds[..|ds| - 1]);
    }
  }

  lemma {:induction false} HeldWasSent(ds: seq<Delivery>, m: Mapping)
    requires Holds(DeliverAll(map[], ds), m)
    ensures m in Sent(ds)
  {
    var init, last := ds[..|ds| - 1], ds[|ds| - 1];
    DeliverInjective(init);
    MergeHolds(DeliverAll(map[], init), last);
    if m != last.m {
      HeldWasSent(init, m);
    }
  }

  lemma NoConflictWithin(t: Table, m: Mapping, n: Mapping)
    requires Injective(t) && Holds(t, m) && Holds(t, n) && Conflict(m, n)
    ensures m == n
  {
  }

  // ------------------------------------------------- who survives every order

  /** An unbeaten mapping is in the final table of every delivery order, with
      any repeats. */
  lemma {:induction false} UnbeatenSurvives(ds: seq<Delivery>, D: set<Mapping>, m: Mapping)
    requires Sent(ds) <= D && Unbeaten(D, m) && m in Sent(ds)
    ensures Holds(DeliverAll(map[], ds), m)
  {
    var init, last := ds[..|ds| - 1], ds[|ds| - 1];
    assert ds == init + [last];
    assert Sent(init) <= Sent(ds) && last.m in Sent(ds);
    var t := DeliverAll(map[], init);
    DeliverInjective(init);
    MergeHolds(t, last);
    if m in Sent(init) {
      UnbeatenSurvives(init, D, m);
    } else {
      var d :| d in ds && d.m == m;
      assert d == last;
      forall n | Holds(t, n) && Conflict(n, m) ensures Beats(m, n) {
        HeldWasSent(init, n);
        ConflictDecided(n, m);
      }
    }
  }

  lemma DeliverOne(t: Table, d: Delivery)
    ensures DeliverAll(t, [d]) == Apply(t, d)
  {
  }

  lemma {:induction false} DeliverAppend(t: Table, a: seq<Delivery>, b: seq<Delivery>)
    ensures DeliverAll(t, a + b) == DeliverAll(DeliverAll(t, a), b)
  {
    if b == [] {
      assert a + b == a;
    } else {
      var i := |b| - 1;
      assert (a + b)[..|a + b| - 1] == a + b[..i];
      DeliverAppend(t, a, b[..i]);
    }
  }

  /** A mapping that is neither held nor delivered stays out. */
  lemma {:induction false} NotSentNotHeld(t: Table, ds: seq<Delivery>, m: Mapping)
    requires Injective(t) && !Holds(t, m) && m !in Sent(ds)
    ensures Injective(DeliverAll(t, ds)) && !Holds(DeliverAll(t, ds), m)
  {
    if ds != [] {
      var init, last := ds[..|ds| - 1], ds[|ds| - 1];
      assert Sent(init) <= Sent(ds) && last.m in Sent(ds);
      NotSentNotHeld(t, init, m);
      MergeHolds(DeliverAll(t, init), last);
    }
  }

  /** Some delivery of exactly the mappings of `D`, each once. */
  lemma {:induction false} Enumerate(D: set<Mapping>) returns (ds: seq<Delivery>)
    ensures Permutes(ds, D) && Sent(ds) == D
  {
    ds := [];
    if D == {} {
      assert Messages(ds) == [];
    } else {
      var m :| m in D;
      var rest := Enumerate(D - {m});
      ds := [Delivery(m, 0)] + rest;
      assert Messages(ds) == [m] + Messages(rest);
      assert D == (D - {m}) + {m};
      assert multiset(D) == multiset(D - {m}) + multiset{m};
      assert Sent(ds) == Sent(rest) + {m};
    }
  }

  lemma PermutesSent(ds: seq<Delivery>, D: set<Mapping>)
    requires Permutes(ds, D)
    ensures Sent(ds) == D
  {
    forall m ensures m in Sent(ds) <==> m in D {
      var ms := Messages(ds);
      assert m in D <==> m in multiset(D);
      assert m in ms <==> m in multiset(ms);
      if m in ms {
        var i :| 0 <= i < |ms| && ms[i] == m;
        assert ds[i] in ds;
      }
      if m in Sent(ds) {
        var d :| d in ds && d.m == m;
        var i :| 0 <= i < |ds| && ds[i] == d;
        assert ms[i] == m;
      }
    }
  }

  lemma PermutesAppend(a: seq<Delivery>, A: set<Mapping>, b: seq<Delivery>, B: set<Mapping>)
    requires Permutes(a, A) && Permutes(b, B) && A !! B
    ensures Permutes(a + b, A + B)
  {
    assert Messages(a + b) == Messages(a) + Messages(b);
    assert multiset(A + B) == multiset(A) + multiset(B);
  }

  /** A beaten mapping is lost in some delivery order without repeats: deliver it,
      then one that beats it, then the rest. */
  lemma BeatenLosesSomewhere(D: set<Mapping>, m: Mapping) returns (ds: seq<Delivery>)
    requires m in D && !Unbeaten(D, m)
    ensures Permutes(ds, D) && !Holds(DeliverAll(map[], ds), m)
  {
    var n :| n in D && Beats(n, m);
    var rest := Enumerate(D - {m, n});
    var two := [Delivery(m, 0), Delivery(n, 0)];
    ds := two + rest;
    assert Permutes(two, {m, n}) by {
      assert Messages(two) == [m, n];
      assert multiset({m, n}) == multiset{m} + multiset{n};
    }
    PermutesAppend(two, {m, n}, rest, D - {m, n});
    assert {m, n} + (D - {m, n}) == D;
    DeliverAppend(map[], two, rest);
    var t1, t2 := DeliverAll(map[], two[..1]), DeliverAll(map[], two);
    assert two[..1] == [two[0]];
    DeliverOne(map[], two[0]);
    assert t2 == Apply(t1, two[1]);
    DeliverInjective(two[..1]);
    MergeHolds(map[], two[0]);
    MergeHolds(t1, two[1]);
    DeliverInjective(two);
    NotSentNotHeld(t2, rest, m);
  }

  /** Exactly the unbeaten mappings survive every delivery order. */
  lemma SurvivesIff(D: set<Mapping>, m: Mapping)
    requires m in D
    ensures Unbeaten(D, m) <==>
            forall ds :: Permutes(ds, D) ==> Holds(DeliverAll(map[], ds), m)
  {
    if Unbeaten(D, m) {
      forall ds | Permutes(ds, D) ensures Holds(DeliverAll(map[], ds), m) {
        PermutesSent(ds, D);
        UnbeatenSurvives(ds, D, m);
      }
    } else {
      var ds := BeatenLosesSomewhere(D, m);
    }
  }

  // ------------------------------------------------- when the order is irrelevant

  /** Every beaten mapping is beaten by an unbeaten one. */
  ghost predicate Settled(D: set<Mapping>) {
    forall m :: m in D && !Unbeaten(D, m) ==> exists n :: Unbeaten(D, n) && Beats(n, m)
  }

  /** All deliveries of `D`, in any order and with any repeats, end alike. */
  ghost predicate OrderIndependent(D: set<Mapping>) {
    forall a, b :: Sent(a) == D && Sent(b) == D ==>
      SameMappings(DeliverAll(map[], a), DeliverAll(map[], b))
  }

  /** A settled set always ends as the set of its unbeaten mappings. */
  lemma SettledFinal(ds: seq<Delivery>, D: set<Mapping>)
    requires Sent(ds) == D && Settled(D)
    ensures forall m :: Holds(DeliverAll(map[], ds), m) <==> Unbeaten(D, m)
  {
    var t := DeliverAll(map[], ds);
    DeliverInjective(ds);
    forall m ensures Holds(t, m) <==> Unbeaten(D, m) {
      if Unbeaten(D, m) {
        UnbeatenSurvives(ds, D, m);
      }
      if Holds(t, m) && !Unbeaten(D, m) {
        HeldWasSent(ds, m);
        var n :| Unbeaten(D, n) && Beats(n, m);
        UnbeatenSurvives(ds, D, n);
        NoConflictWithin(t, m, n);
        assert false;
      }
    }
  }

  /** Deliveries that never touch a held mapping of `U` leave something else in
      the table once one of them has been taken. */
  lemma {:induction false} OutsiderStays(t: Table, ds: seq<Delivery>, U: set<Mapping>)
    requires Injective(t) && ds != []
    requires forall n :: Holds(t, n) ==> n in U
    requires forall d, u :: d in ds && u in U ==> !Conflict(d.m, u)
    ensures Injective(DeliverAll(t, ds))
    ensures exists m :: m !in U && Holds(DeliverAll(t, ds), m)
  {
    var init, last := ds[..|ds| - 1], ds[|ds| - 1];
    assert Conflict(last.m, last.m);
    assert last in ds && last.m !in U;
    assert DeliverAll(t, ds) == Apply(DeliverAll(t, init), last);
    if init == [] {
      assert DeliverAll(t, init) == t;
      MergeHolds(t, last);
      assert Holds(Apply(t, last), last.m);
    } else {
      OutsiderStays(t, init, U);
      var s := DeliverAll(t, init);
      MergeHolds(s, last);
      var m :| m !in U && Holds(s, m);
      assert Holds(Apply(s, last), m) || Holds(Apply(s, last), last.m);
    }
  }

  lemma {:induction false} BeatenByHeld(t: Table, ds: seq<Delivery>, U: set<Mapping>)
    requires Injective(t)
    requires forall n :: Holds(t, n) <==> n in U
    requires forall d :: d in ds ==> BeatenBy(U, d.m)
    ensures DeliverAll(t, ds) == t
  {
    if ds != [] {
      var init, last := ds[..|ds| - 1], ds[|ds| - 1];
      assert ds == init + [last];
      BeatenByHeld(t, init, U);
      assert last in ds;
      var u :| u in U && Beats(u, last.m);
      MergeHolds(t, last);
    }
  }

  /** An unsettled set has a delivery order, without repeats, that leaves a beaten
      mapping behind: first the unbeaten ones, then all they beat, then the rest. */
  lemma UnsettledLeftover(D: set<Mapping>) returns (ds: seq<Delivery>, m: Mapping)
    requires !Settled(D)
    ensures Permutes(ds, D) && m in D && !Unbeaten(D, m) && Holds(DeliverAll(map[], ds), m)
  {
    var U := set u | u in D && Unbeaten(D, u);
    var W := set w | w in D && w !in U && BeatenBy(U, w);
    var X := D - U - W;
    assert X != {} by {
      var x :| x in D && !Unbeaten(D, x) && forall n :: Unbeaten(D, n) ==> !Beats(n, x);
      assert x in X;
    }
    var us := Enumerate(U);
    var ws := Enumerate(W);
    var xs := Enumerate(X);
    ds := us + ws + xs;
    PermutesAppend(us, U, ws, W);
    PermutesAppend(us + ws, U + W, xs, X);
    assert U + W + X == D;
    DeliverAppend(map[], us + ws, xs);
    DeliverAppend(map[], us, ws);
    var t := DeliverAll(map[], us);
    DeliverInjective(us);
    forall n ensures Holds(t, n) <==> n in U {
      if n in U { UnbeatenSurvives(us, D, n); }
      if Holds(t, n) { HeldWasSent(us, n); }
    }
    forall d | d in ws ensures BeatenBy(U, d.m) {
      assert d.m in Sent(ws);
    }
    BeatenByHeld(t, ws, U);
    assert Sent([]) == {};
    forall d, u | d in xs && u in U ensures !Conflict(d.m, u) {
      assert d.m in Sent(xs);
      if Conflict(d.m, u) { ConflictDecided(d.m, u); }
    }
    OutsiderStays(t, xs, U);
    m :| m !in U && Holds(DeliverAll(map[], ds), m);
    HeldWasSent(ds, m);
    PermutesSent(ds, D);
  }

  /** Delivery order is irrelevant exactly for the settled sets of mappings. */
  lemma OrderIndependentIff(D: set<Mapping>)
    ensures OrderIndependent(D) <==> Settled(D)
  {
    if Settled(D) {
      forall a, b | Sent(a) == D && Sent(b) == D
        ensures SameMappings(DeliverAll(map[], a), DeliverAll(map[], b))
      {
        SettledFinal(a, D);
        SettledFinal(b, D);
      }
    } else {
      var a, m := UnsettledLeftover(D);
      var b := BeatenLosesSomewhere(D, m);
      PermutesSent(a, D);
      PermutesSent(b, D);
    }
  }

  // ------------------------------------------------------------- special cases

  /** No real is proposed with two different fakes. */
  ghost predicate OneFakePerReal(D: set<Mapping>) {
    forall m, n :: m in D && n in D && m.realIP == n.realIP ==> m.fakeIP == n.fakeIP
  }

  /** No fake is proposed for two different reals, and versions are all equal:
      what recovery reads back from the kernel map. */
  ghost predicate KernelDump(D: set<Mapping>) {
    forall m, n :: m in D && n in D ==> m.version == n.version && (m.fakeIP == n.fakeIP ==> m == n)
  }

  ghost predicate TopOfFake(D: set<Mapping>, m: Mapping) {
    m in D && forall n :: n in D && n.fakeIP == m.fakeIP && n != m ==> Later(m.version, m.realIP, n.version, n.realIP)
  }

  ghost predicate TopOfReal(D: set<Mapping>, m: Mapping) {
    m in D && forall n :: n in D && n.realIP == m.realIP ==> n.fakeIP <= m.fakeIP
  }

  lemma {:induction false} TopOfFakeExists(D: set<Mapping>, fakeIP: IPKey, m: Mapping) returns (top: Mapping)
    requires m in D && m.fakeIP == fakeIP
    ensures TopOfFake(D, top) && top.fakeIP == fakeIP
    decreases D
  {
    var E := D - {m};
    if n :| n in E && n.fakeIP == fakeIP {
      top := TopOfFakeExists(E, fakeIP, n);
      if Later(m.version, m.realIP, top.version, top.realIP) { top := m; }
    } else {
      top := m;
    }
  }

  lemma {:induction false} TopOfRealExists(D: set<Mapping>, realIP: IPKey, m: Mapping) returns (top: Mapping)
    requires m in D && m.realIP == realIP
    ensures TopOfReal(D, top) && top.realIP == realIP
    decreases D
  {
    var E := D - {m};
    if n :| n in E && n.realIP == realIP {
      top := TopOfRealExists(E, realIP, n);
      if m.fakeIP > top.fakeIP { top := m; }
    } else {
      top := m;
    }
  }

  /** When no real is proposed twice, every order leaves each fake with the
      lexicographic maximum of (version, real). */
  lemma OneFakePerRealConverges(ds: seq<Delivery>, D: set<Mapping>)
    requires Sent(ds) == D && OneFakePerReal(D)
    ensures OrderIndependent(D)
    ensures forall m :: Holds(DeliverAll(map[], ds), m) <==> TopOfFake(D, m)
  {
    forall m ensures TopOfFake(D, m) <==> Unbeaten(D, m) {
      if Unbeaten(D, m) {
        forall n | n in D && n.fakeIP == m.fakeIP && n != m ensures Later(m.version, m.realIP, n.version, n.realIP) {
          ConflictDecided(m, n);
        }
      }
    }
    forall m | m in D && !Unbeaten(D, m) ensures exists n :: Unbeaten(D, n) && Beats(n, m) {
      var top := TopOfFakeExists(D, m.fakeIP, m);
      assert Unbeaten(D, top) && Beats(top, m);
    }
    OrderIndependentIff(D);
    SettledFinal(ds, D);
  }

  /** Recovery from the kernel map does not depend on the iteration order: each
      real ends with its greatest fake. */
  lemma RecoveryOrderIrrelevant(ds: seq<Delivery>, D: set<Mapping>)
    requires Sent(ds) == D && KernelDump(D)
    ensures OrderIndependent(D)
    ensures forall m :: Holds(DeliverAll(map[], ds), m) <==> TopOfReal(D, m)
  {
    forall m ensures TopOfReal(D, m) <==> Unbeaten(D, m) {
      if Unbeaten(D, m) {
        forall n | n in D && n.realIP == m.realIP ensures n.fakeIP <= m.fakeIP {
          if n.fakeIP > m.fakeIP { assert Beats(n, m); }
        }
      }
    }
    forall m | m in D && !Unbeaten(D, m) ensures exists n :: Unbeaten(D, n) && Beats(n, m) {
      var top := TopOfRealExists(D, m.realIP, m);
      assert Unbeaten(D, top) && Beats(top, m);
    }
    OrderIndependentIff(D);
    SettledFinal(ds, D);
  }

  /** A peer that connects with an empty table ends with exactly the sender's
      mappings, whatever the order of the cold-start messages. */
  lemma ColdStartReplicates(t: Table, ds: seq<Delivery>)
    requires Injective(t) && forall m :: m in Sent(ds) <==> Holds(t, m)
    ensures SameMappings(DeliverAll(map[], ds), t)
  {
    var D := Sent(ds);
    forall m | m in D ensures Unbeaten(D, m) {
      forall n | n in D ensures !Beats(n, m) {
        if Beats(n, m) { NoConflictWithin(t, n, m); }
      }
    }
    SettledFinal(ds, D);
  }

  /** The version check in front of the merge changes nothing, in any state. */
  lemma PreCheckRedundant(t: Table, d: Delivery)
    ensures Receive(t, d) == Apply(t, d)
  {
  }

  /** Delivered in the order 1, 2, 3 these leave only the third mapping; in the
      order 1, 3, 2 the first one stays as well. */
  lemma OrderMatters()
    ensures var m1 := Mapping(V4Key(1), V4Key(101), 1);
            var m2 := Mapping(V4Key(2), V4Key(101), 2);
            var m3 := Mapping(V4Key(2), V4Key(102), 3);
            var a := DeliverAll(map[], [Delivery(m1, 0), Delivery(m2, 0), Delivery(m3, 0)]);
            var b := DeliverAll(map[], [Delivery(m1, 0), Delivery(m3, 0), Delivery(m2, 0)]);
            && !Holds(a, m1) && !Holds(a, m2) && Holds(a, m3)
            && Holds(b, m1) && !Holds(b, m2) && Holds(b, m3)
  {
    var d1 := Delivery(Mapping(V4Key(1), V4Key(101), 1), 0);
    var d2 := Delivery(Mapping(V4Key(2), V4Key(101), 2), 0);
    var d3 := Delivery(Mapping(V4Key(2), V4Key(102), 3), 0);
    var a, b := [d1, d2, d3], [d1, d3, d2];
    assert a[..2] == [d1, d2] && b[..2] == [d1, d3] && [d1, d2][..1] == [d1] == [d1, d3][..1] && [d1][..0] == [];
    var t := Apply(map[], d1);
    assert t == map[V4Key(101) := Lease(V4Key(1), 1, 0)];
    assert DeliverAll(map[], [d1]) == t;
    assert Apply(t, d2) == map[V4Key(101) := Lease(V4Key(2), 2, 0)];
    assert Apply(Apply(t, d2), d3) == map[V4Key(102) := Lease(V4Key(2), 3, 0)];
    assert Apply(t, d3) == map[V4Key(101) := Lease(V4Key(1), 1, 0), V4Key(102) := Lease(V4Key(2), 3, 0)];
    assert V4Key(102) in Apply(t, d3);
    assert Apply(Apply(t, d3), d2) == Apply(t, d3);
  }
}
