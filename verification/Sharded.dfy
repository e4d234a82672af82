/** The pool as the engine stores it: 64 shards from real to fake and expiry,
    chosen by hash, and two global indexes by fake.  `Represents` ties that form
    to the one lease table it stands for. */
module Sharded {
  import opened Address
  import opened Geometry
  import opened Leases
  import Sets

  const SHARDS := 64

  datatype Shard = Shard(realToFake: map<IPKey, IPKey>, expiries: map<IPKey, int>)

  datatype State = State(shards: seq<Shard>, fakeToReal: map<IPKey, IPKey>, versions: map<IPKey, Uint64>)

  function Index(h: Hashing, r: IPKey): nat {
    h.shard(r) % SHARDS
  }

  /** A shard holds reals of its own hash only, with an expiry for each. */
  ghost predicate ShardSound(d: Shard, i: nat, t: Table, h: Hashing) {
    && d.expiries.Keys == d.realToFake.Keys
    && forall r :: r in d.realToFake ==> Index(h, r) == i && r in t
  }

  ghost predicate ShardsSound(s: State, t: Table, h: Hashing) {
    |s.shards| == SHARDS && forall i :: 0 <= i < SHARDS ==> ShardSound(s.shards[i], i, t, h)
  }

  /** The shard has the whole lease of `r`. */
  ghost predicate ShardHas(d: Shard, r: IPKey, lease: Lease) {
    && r in d.realToFake && d.realToFake[r] == lease.fakeIP
    && r in d.expiries && d.expiries[r] == lease.expiry
  }

  ghost predicate ShardsComplete(s: State, t: Table, h: Hashing)
    requires |s.shards| == SHARDS
  {
    forall r :: r in t ==> ShardHas(s.shards[Index(h, r)], r, t[r])
  }

  /** The global indexes are the exact inverse, with a version for each fake. */
  ghost predicate IndexesExact(s: State, t: Table) {
    && s.versions.Keys == s.fakeToReal.Keys
    && (forall f :: f in s.fakeToReal ==> s.fakeToReal[f] in t && t[s.fakeToReal[f]].fakeIP == f)
    && (forall r :: r in t ==>
          t[r].fakeIP in s.fakeToReal && s.fakeToReal[t[r].fakeIP] == r &&
          t[r].fakeIP in s.versions && s.versions[t[r].fakeIP] == t[r].version)
  }

  ghost predicate Represents(s: State, t: Table, h: Hashing) {
    ShardsSound(s, t, h) && ShardsComplete(s, t, h) && IndexesExact(s, t)
  }

  lemma RepresentsInjective(s: State, t: Table, h: Hashing)
    requires Represents(s, t, h)
    ensures Injective(t) && Fakes(t) == s.fakeToReal.Keys
  {
    forall f: IPKey | f in s.fakeToReal ensures f in Fakes(t) {
      var r := s.fakeToReal[f];
      assert r in t && t[r].fakeIP == f;
    }
  }

  lemma EmptyRepresents(s: State, h: Hashing)
    requires |s.shards| == SHARDS && s.fakeToReal == map[] && s.versions == map[]
    requires forall i :: 0 <= i < SHARDS ==> s.shards[i] == Shard(map[], map[])
    ensures Represents(s, map[], h)
  {
  }

  /** The stored form determines the table. */
  lemma RepresentsUnique(s: State, t: Table, u: Table, h: Hashing)
    requires Represents(s, t, h) && Represents(s, u, h)
    ensures t == u
  {
    forall r: IPKey ensures (r in t <==> r in u) && (r in t ==> t[r] == u[r]) {
      var i := Index(h, r);
      assert ShardSound(s.shards[i], i, t, h) && ShardSound(s.shards[i], i, u, h);
      if r in t { assert ShardHas(s.shards[i], r, t[r]); }
      if r in u { assert ShardHas(s.shards[i], r, u[r]); }
    }
  }

  // ------------------------------------------------------------ elementary moves

  /** The lease of `r`, whose fake is `f`, is removed. */
  function Unlink(s: State, h: Hashing, r: IPKey, f: IPKey): State
    requires |s.shards| == SHARDS
  {
    State(Drop(s.shards, h, r), s.fakeToReal - {f}, s.versions - {f})
  }

  function Link(s: State, h: Hashing, r: IPKey, lease: Lease): State
    requires |s.shards| == SHARDS
  {
    State(Put(s.shards, h, r, lease), s.fakeToReal[lease.fakeIP := r], s.versions[lease.fakeIP := lease.version])
  }

  function Extend(s: State, h: Hashing, r: IPKey, expiry: int): State
    requires |s.shards| == SHARDS
  {
    var i := Index(h, r);
    s.(shards := s.shards[i := s.shards[i].(expiries := s.shards[i].expiries[r := expiry])])
  }

  lemma UnlinkRepresents(s: State, t: Table, h: Hashing, r: IPKey)
    requires Represents(s, t, h) && r in t
    ensures Represents(Unlink(s, h, r, t[r].fakeIP), t - {r}, h)
  {
    DropShards(s, t, h, r);
    UnlinkIndexes(s, t, h, r);
  }

  lemma UnlinkIndexes(s: State, t: Table, h: Hashing, r: IPKey)
    requires |s.shards| == SHARDS && IndexesExact(s, t) && r in t
    ensures IndexesExact(Unlink(s, h, r, t[r].fakeIP), t - {r})
  {
  }

  lemma LinkRepresents(s: State, t: Table, h: Hashing, r: IPKey, lease: Lease)
    requires Represents(s, t, h) && r !in t && lease.fakeIP !in s.fakeToReal
    ensures Represents(Link(s, h, r, lease), t[r := lease], h)
  {
    PutShards(s, t, h, r, lease);
    LinkIndexes(s, t, h, r, lease);
  }

  lemma LinkIndexes(s: State, t: Table, h: Hashing, r: IPKey, lease: Lease)
    requires |s.shards| == SHARDS && IndexesExact(s, t) && r !in t && lease.fakeIP !in s.fakeToReal
    ensures IndexesExact(Link(s, h, r, lease), t[r := lease])
  {
  }

  lemma ExtendRepresents(s: State, t: Table, h: Hashing, r: IPKey, expiry: int)
    requires Represents(s, t, h) && r in t
    ensures Represents(Extend(s, h, r, expiry), t[r := t[r].(expiry := expiry)], h)
  {
    var u := t[r := t[r].(expiry := expiry)];
    assert IndexesExact(Extend(s, h, r, expiry), u);
    assert ShardsSound(Extend(s, h, r, expiry), u, h);
    assert ShardsComplete(Extend(s, h, r, expiry), u, h);
  }

  // ------------------------------------------------------------------ the merge

  /** The acceptance test as the indexes answer it. */
  ghost predicate AcceptsStored(s: State, h: Hashing, realIP: IPKey, fakeIP: IPKey, version: Uint64)
    requires |s.shards| == SHARDS && s.versions.Keys == s.fakeToReal.Keys
  {
    var own := s.shards[Index(h, realIP)].realToFake;
    && (fakeIP in s.fakeToReal ==>
          fakeIP in s.versions && Later(version, realIP, s.versions[fakeIP], s.fakeToReal[fakeIP]))
    && (realIP in own && own[realIP] != fakeIP ==>
          own[realIP] in s.versions && Later(version, fakeIP, s.versions[own[realIP]], own[realIP]))
  }

  lemma OwnFake(s: State, t: Table, h: Hashing, r: IPKey)
    requires Represents(s, t, h)
    ensures var d := s.shards[Index(h, r)];
            && (r in d.realToFake <==> r in t)
            && (r in t ==> ShardHas(d, r, t[r]) && d.realToFake[r] in s.versions
                           && s.versions[d.realToFake[r]] == t[r].version)
  {
  }

  lemma AcceptsStoredExact(s: State, t: Table, h: Hashing, realIP: IPKey, fakeIP: IPKey, version: Uint64)
    requires Represents(s, t, h)
    ensures AcceptsStored(s, h, realIP, fakeIP, version) <==> Accepts(t, realIP, fakeIP, version)
  {
  }

  function Drop(shards: seq<Shard>, h: Hashing, r: IPKey): (d: seq<Shard>)
    requires |shards| == SHARDS
    ensures |d| == SHARDS
  {
    var i := Index(h, r);
    shards[i := Shard(shards[i].realToFake - {r}, shards[i].expiries - {r})]
  }

  function Put(shards: seq<Shard>, h: Hashing, r: IPKey, lease: Lease): (d: seq<Shard>)
    requires |shards| == SHARDS
    ensures |d| == SHARDS
  {
    var i := Index(h, r);
    shards[i := Shard(shards[i].realToFake[r := lease.fakeIP], shards[i].expiries[r := lease.expiry])]
  }

  /** An accepted mapping as the engine writes it: the fake's other holder leaves
      its shard, the real's other fake leaves the indexes, the rest is overwritten. */
  function AddStored(s: State, h: Hashing, realIP: IPKey, lease: Lease): State
    requires |s.shards| == SHARDS
  {
    var own := s.shards[Index(h, realIP)].realToFake;
    var moved := realIP in own && own[realIP] != lease.fakeIP;
    var taken := lease.fakeIP in s.fakeToReal && s.fakeToReal[lease.fakeIP] != realIP;
    State(Put(if taken then Drop(s.shards, h, s.fakeToReal[lease.fakeIP]) else s.shards, h, realIP, lease),
          (if moved then s.fakeToReal - {own[realIP]} else s.fakeToReal)[lease.fakeIP := realIP],
          (if moved then s.versions - {own[realIP]} else s.versions)[lease.fakeIP := lease.version])
  }

  lemma DropShards(s: State, t: Table, h: Hashing, r: IPKey)
    requires ShardsSound(s, t, h) && ShardsComplete(s, t, h)
    ensures var d := s.(shards := Drop(s.shards, h, r)); ShardsSound(d, t - {r}, h) && ShardsComplete(d, t - {r}, h)
  {
  }

  lemma PutShards(s: State, t: Table, h: Hashing, r: IPKey, lease: Lease)
    requires ShardsSound(s, t, h) && ShardsComplete(s, t, h)
    ensures var d := s.(shards := Put(s.shards, h, r, lease));
            ShardsSound(d, t[r := lease], h) && ShardsComplete(d, t[r := lease], h)
  {
  }

  lemma AddIndexes(s: State, t: Table, h: Hashing, realIP: IPKey, lease: Lease)
    requires Represents(s, t, h)
    ensures IndexesExact(AddStored(s, h, realIP, lease), Without(t, lease.fakeIP)[realIP := lease])
  {
    OwnFake(s, t, h, realIP);
  }

  lemma AddRepresents(s: State, t: Table, h: Hashing, realIP: IPKey, lease: Lease)
    requires Represents(s, t, h)
    ensures Represents(AddStored(s, h, realIP, lease), Without(t, lease.fakeIP)[realIP := lease], h)
  {
    var w := Without(t, lease.fakeIP);
    RepresentsInjective(s, t, h);
    AddIndexes(s, t, h, realIP, lease);
    if lease.fakeIP in s.fakeToReal {
      var r := s.fakeToReal[lease.fakeIP];
      assert MapsBack(t, lease.fakeIP, r);
      WithoutHolder(t, lease.fakeIP, r);
      if r != realIP {
        DropShards(s, t, h, r);
        PutShards(s.(shards := Drop(s.shards, h, r)), w, h, realIP, lease);
      } else {
        PutShards(s, t, h, realIP, lease);
        assert t[realIP := lease] == w[realIP := lease];
      }
    } else {
      WithoutFree(t, lease.fakeIP);
      PutShards(s, t, h, realIP, lease);
    }
  }

  // ------------------------------------------------------------------- pruning

  function PairSet(s: seq<(IPKey, IPKey)>): set<(IPKey, IPKey)> {
    set p | p in s
  }

  /** The table with the expired leases of the first `n` shards gone. */
  ghost function PrunedBelow(t: Table, h: Hashing, now: int, n: nat): Table {
    map r | r in t && !(t[r].expiry < now && Index(h, r) < n) :: t[r]
  }

  /** `pairs` is exactly what is expired in shard `i`. */
  ghost predicate ExpiredIn(t: Table, h: Hashing, now: int, i: nat, pairs: seq<(IPKey, IPKey)>) {
    forall r: IPKey, f: IPKey ::
      (r, f) in pairs <==> Expired(t, r, now) && t[r].fakeIP == f && Index(h, r) == i
  }

  lemma PruneNextShard(t: Table, h: Hashing, now: int, i: nat, pairs: seq<(IPKey, IPKey)>)
    requires ExpiredIn(PrunedBelow(t, h, now, i), h, now, i, pairs)
    ensures PruneListed(PrunedBelow(t, h, now, i), now, PairSet(pairs)) == PrunedBelow(t, h, now, i + 1)
  {
  }

  lemma PrunedBounds(t: Table, h: Hashing, now: int)
    ensures PrunedBelow(t, h, now, 0) == t
    ensures PrunedBelow(t, h, now, SHARDS) == PruneAll(t, now)
  {
  }

  // --------------------------------------------------------------- active count

  function SizesBelow(s: seq<Shard>, n: nat): nat
    requires n <= |s|
  {
    if n == 0 then 0 else SizesBelow(s, n - 1) + |s[n - 1].realToFake|
  }

  ghost function Part(t: Table, h: Hashing, n: nat): Table {
    map r | r in t && Index(h, r) < n :: t[r]
  }

  lemma {:induction false} PartSizes(s: State, t: Table, h: Hashing, n: nat)
    requires Represents(s, t, h) && n <= SHARDS
    ensures |Part(t, h, n)| == SizesBelow(s.shards, n)
  {
    if n == 0 {
      assert Part(t, h, 0) == map[];
    } else {
      PartSizes(s, t, h, n - 1);
      PartGrows(s, t, h, n);
    }
  }

  lemma PartGrows(s: State, t: Table, h: Hashing, n: nat)
    requires Represents(s, t, h) && 0 < n <= SHARDS
    ensures |Part(t, h, n)| == |Part(t, h, n - 1)| + |s.shards[n - 1].realToFake|
  {
    var all, less, own := Part(t, h, n), Part(t, h, n - 1), s.shards[n - 1].realToFake;
    forall r: IPKey ensures (r in all <==> r in less || r in own) && !(r in less && r in own) {
      InShard(s, t, h, n - 1, r);
    }
    Sets.SizesAdd(all, less, own);
  }

  lemma InShard(s: State, t: Table, h: Hashing, i: nat, r: IPKey)
    requires Represents(s, t, h) && i < SHARDS
    ensures r in s.shards[i].realToFake <==> r in t && Index(h, r) == i
  {
  }

  /** Leases, held fakes and the entries of all shards are equally many. */
  lemma ActiveCount(s: State, t: Table, h: Hashing)
    requires Represents(s, t, h)
    ensures |s.fakeToReal| == |t| == SizesBelow(s.shards, SHARDS)
  {
    PartSizes(s, t, h, SHARDS);
    assert Part(t, h, SHARDS) == t;
    RepresentsInjective(s, t, h);
    FakesCount(t);
  }
}
