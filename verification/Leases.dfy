/** The pool as one map: every real address holds at most one lease, and no two
    reals hold the same fake.  The operations below say what each critical
    section of the engine does to that map; the class in `IPPool.dfy`, which
    keeps the map spread over 64 shards and two global indexes, is proved to
    implement them. */
module Leases {
  import opened Address
  import Sets

  /** Times are nanoseconds. */
  const MINUTE := 60 * 1_000_000_000
  const FIVE_MINUTES := 5 * MINUTE
  const MAPPING_TTL := 120 * MINUTE

  datatype Lease = Lease(fakeIP: IPKey, version: Uint64, expiry: int)

  /** From real address to its lease. */
  type Table = map<IPKey, Lease>

  ghost predicate Injective(t: Table) {
    forall r1, r2 :: r1 in t && r2 in t && t[r1].fakeIP == t[r2].fakeIP ==> r1 == r2
  }

  function Fakes(t: Table): set<IPKey> {
    set r | r in t :: t[r].fakeIP
  }

  predicate Live(t: Table, realIP: IPKey, now: int) {
    realIP in t && now < t[realIP].expiry
  }

  /** What looking `fake` up in the fake-to-real index yields. */
  ghost predicate MapsBack(t: Table, fakeIP: IPKey, realIP: IPKey) {
    realIP in t && t[realIP].fakeIP == fakeIP
  }

  // ---------------------------------------------------------------- AddMapping

  /** The strict order that settles a conflict: version first, address second. */
  predicate Later(v1: Uint64, k1: IPKey, v2: Uint64, k2: IPKey) {
    v1 > v2 || (v1 == v2 && k1 > k2)
  }

  /** A proposal is taken when it beats the holder of its fake by (version, real)
      and the other lease of its real, if there is one, by (version, fake). */
  predicate Accepts(t: Table, realIP: IPKey, fakeIP: IPKey, version: Uint64) {
    && (forall r :: r in t && t[r].fakeIP == fakeIP ==> Later(version, realIP, t[r].version, r))
    && (realIP in t && t[realIP].fakeIP != fakeIP ==> Later(version, fakeIP, t[realIP].version, t[realIP].fakeIP))
  }

  function Without(t: Table, fakeIP: IPKey): Table {
    map r | r in t && t[r].fakeIP != fakeIP :: t[r]
  }

  function Merge(t: Table, realIP: IPKey, fakeIP: IPKey, version: Uint64, expiresAt: int): Table {
    if Accepts(t, realIP, fakeIP, version)
    then Without(t, fakeIP)[realIP := Lease(fakeIP, version, expiresAt)]
    else t
  }

  /** What a merge promises its caller: a mapping is taken exactly when its version is
      higher than that of the fake's holder, or equal with a higher real, and higher
      than that of the real's other lease, or equal with a higher fake.  Then its real
      has exactly the lease given, the fake's other holder is gone, and all other leases
      are as they were, expiries included; otherwise all are. */
  ghost predicate Taken(t: Table, u: Table, added: bool, realIP: IPKey, fakeIP: IPKey, version: Uint64, expiresAt: int) {
    && (added <==>
          && (forall r :: r in t && t[r].fakeIP == fakeIP ==>
                version > t[r].version || (version == t[r].version && realIP > r))
          && (realIP in t && t[realIP].fakeIP != fakeIP ==>
                version > t[realIP].version || (version == t[realIP].version && fakeIP > t[realIP].fakeIP)))
    && (added ==>
          && realIP in u && u[realIP] == Lease(fakeIP, version, expiresAt)
          && forall r :: r != realIP ==> (r in u <==> r in t && t[r].fakeIP != fakeIP) && (r in u ==> u[r] == t[r]))
    && (!added ==> u == t)
  }

  lemma MergeTakes(t: Table, realIP: IPKey, fakeIP: IPKey, version: Uint64, expiresAt: int)
    ensures Taken(t, Merge(t, realIP, fakeIP, version, expiresAt), Accepts(t, realIP, fakeIP, version),
                  realIP, fakeIP, version, expiresAt)
  {
  }

  /** The promise leaves no choice. */
  lemma TakenUnique(t: Table, u: Table, v: Table, a: bool, b: bool, realIP: IPKey, fakeIP: IPKey, version: Uint64, expiresAt: int)
    requires Taken(t, u, a, realIP, fakeIP, version, expiresAt) && Taken(t, v, b, realIP, fakeIP, version, expiresAt)
    ensures a == b && u == v
  {
    forall k: IPKey ensures (k in u <==> k in v) && (k in u ==> u[k] == v[k]) {
    }
    Sets.SameMap(u, v);
  }

  // ------------------------------------------------- RemoveMapping, TryReserve

  function Remove(t: Table, realIP: IPKey, fakeIP: IPKey): Table {
    if realIP in t && t[realIP].fakeIP == fakeIP then t - {realIP} else t
  }

  /** A live lease is extended when it has under five minutes left. */
  function Refresh(t: Table, realIP: IPKey, now: int, expiresAt: int): Table
    requires realIP in t
  {
    if now + FIVE_MINUTES > t[realIP].expiry then t[realIP := t[realIP].(expiry := expiresAt)] else t
  }

  /** The clock is read twice: `now` decides liveness, `later` the extension. */
  function Reserve(t: Table, realIP: IPKey, fakeIP: IPKey, version: Uint64, expiresAt: int,
                   now: int, later: int): (Table, Option<IPKey>)
  {
    if Live(t, realIP, now) then (Refresh(t, realIP, later, expiresAt), Some(t[realIP].fakeIP))
    else if fakeIP in Fakes(t - {realIP}) then (t - {realIP}, None)
    else ((t - {realIP})[realIP := Lease(fakeIP, version, expiresAt)], Some(fakeIP))
  }

  /** What an extension promises: with under five minutes left, measured at `now`, the
      lease of the real expires at `expiresAt`; nothing else changes. */
  ghost predicate Extended(t: Table, u: Table, realIP: IPKey, now: int, expiresAt: int) {
    && realIP in t && realIP in u
    && u[realIP] == Lease(t[realIP].fakeIP, t[realIP].version,
                          if t[realIP].expiry < now + 300_000_000_000 then expiresAt else t[realIP].expiry)
    && forall r :: r != realIP ==> (r in u <==> r in t) && (r in u ==> u[r] == t[r])
  }

  /** What a reservation promises: a live lease is kept and perhaps extended; otherwise the
      real loses its lease, and gets the one asked for exactly if no other real has the
      fake. */
  ghost predicate Reserved(t: Table, u: Table, granted: Option<IPKey>, realIP: IPKey, lease: Lease, now: int, later: int) {
    if realIP in t && now < t[realIP].expiry
    then granted == Some(t[realIP].fakeIP) && Extended(t, u, realIP, later, lease.expiry)
    else
      && (granted == None || granted == Some(lease.fakeIP))
      && (granted == None <==> exists r :: r in t && r != realIP && t[r].fakeIP == lease.fakeIP)
      && (granted == None ==> realIP !in u)
      && (granted.Some? ==> realIP in u && u[realIP] == lease)
      && forall r :: r != realIP ==> (r in u <==> r in t) && (r in u ==> u[r] == t[r])
  }

  lemma ReserveGrants(t: Table, realIP: IPKey, fakeIP: IPKey, version: Uint64, expiresAt: int, now: int, later: int)
    ensures var (u, granted) := Reserve(t, realIP, fakeIP, version, expiresAt, now, later);
            Reserved(t, u, granted, realIP, Lease(fakeIP, version, expiresAt), now, later)
  {
    var u := t - {realIP};
    if fakeIP in Fakes(u) {
      var r :| r in u && u[r].fakeIP == fakeIP;
      assert r in t && r != realIP && t[r].fakeIP == fakeIP;
    }
    forall r | r in t && r != realIP && t[r].fakeIP == fakeIP ensures fakeIP in Fakes(u) {
      assert r in u;
    }
  }

  // -------------------------------------------------------------- PruneExpired

  predicate Expired(t: Table, realIP: IPKey, now: int) {
    realIP in t && t[realIP].expiry < now
  }

  /** Second phase of a prune: `pairs` is what the first phase saw, perhaps long ago. */
  function PruneListed(t: Table, now: int, pairs: set<(IPKey, IPKey)>): Table {
    map r | r in t && !(t[r].expiry < now && (r, t[r].fakeIP) in pairs) :: t[r]
  }

  function PruneAll(t: Table, now: int): Table {
    map r | r in t && now <= t[r].expiry :: t[r]
  }

  /** Going through the list one pair at a time. */
  lemma PruneOneMore(t: Table, now: int, pairs: set<(IPKey, IPKey)>, r: IPKey, f: IPKey)
    ensures var u := PruneListed(t, now, pairs);
            PruneListed(t, now, pairs + {(r, f)}) == if Expired(u, r, now) && u[r].fakeIP == f then u - {r} else u
  {
  }

  lemma PruneNone(t: Table, now: int)
    ensures PruneListed(t, now, {}) == t
  {
  }

  // ------------------------------------------------------- the invariant kept

  lemma MergeInjective(t: Table, realIP: IPKey, fakeIP: IPKey, version: Uint64, expiresAt: int)
    requires Injective(t)
    ensures Injective(Merge(t, realIP, fakeIP, version, expiresAt))
  {
  }

  lemma ReserveInjective(t: Table, realIP: IPKey, fakeIP: IPKey, version: Uint64, expiresAt: int,
                         now: int, later: int)
    requires Injective(t)
    ensures Injective(Reserve(t, realIP, fakeIP, version, expiresAt, now, later).0)
    ensures var (t', f) := Reserve(t, realIP, fakeIP, version, expiresAt, now, later);
            f.Some? ==> MapsBack(t', f.value, realIP)
  {
  }

  /** An injective table holds as many fakes as reals. */
  lemma {:induction false} FakesCount(t: Table)
    requires Injective(t)
    ensures |Fakes(t)| == |t|
  {
    if t.Keys == {} {
      assert Fakes(t) == {};
    } else {
      var r := Sets.Pick(t.Keys);
      var u := t - {r};
      FakesCount(u);
      assert t.Keys == u.Keys + {r};
      FakesSplit(t, r);
    }
  }

  /** Clearing a fake removes its one holder, if it has one. */
  lemma WithoutHolder(t: Table, fakeIP: IPKey, r: IPKey)
    requires Injective(t) && MapsBack(t, fakeIP, r)
    ensures Without(t, fakeIP) == t - {r}
  {
    var w := Without(t, fakeIP);
    forall k: IPKey ensures (k in w <==> k in t - {r}) && (k in w ==> w[k] == (t - {r})[k]) {
      assert k in t && t[k].fakeIP == fakeIP ==> k == r;
    }
    Sets.SameMap(w, t - {r});
  }

  lemma WithoutFree(t: Table, fakeIP: IPKey)
    requires forall r :: r in t ==> t[r].fakeIP != fakeIP
    ensures Without(t, fakeIP) == t
  {
    var w := Without(t, fakeIP);
    forall k: IPKey ensures (k in w <==> k in t) && (k in w ==> w[k] == t[k]) {
    }
    Sets.SameMap(w, t);
  }

  lemma FakesSplit(t: Table, r: IPKey)
    requires Injective(t) && r in t
    ensures Fakes(t) == Fakes(t - {r}) + {t[r].fakeIP}
    ensures t[r].fakeIP !in Fakes(t - {r})
  {
    var u := t - {r};
    forall f | f in Fakes(t) ensures f in Fakes(u) + {t[r].fakeIP} {
      var q :| q in t && t[q].fakeIP == f;
      assert q == r || q in u;
    }
  }
}
