/** The pool itself, updated in place.  Every method below is one critical
    section of the engine, or, for `PruneExpired` and `GetFakeIPsForReals`, the
    engine's loop over critical sections run without interference.  The ghost
    field `leases` is the one table that shards and indexes stand for. */
module Pool {
  import opened Address
  import opened Blocks
  import opened Geometry
  import opened Leases
  import opened Allocation
  import opened Sharded
  import Convergence
  import Sets
  import Sorting

  class CacheShard {
    var realToFake: map<IPKey, IPKey>
    var expiries: map<IPKey, int>

    constructor ()
      ensures realToFake == map[] && expiries == map[]
    {
      realToFake, expiries := map[], map[];
    }
  }

  class IPPool {
    const shards: seq<CacheShard>
    const g: Geometry
    const h: Hashing
    var globalFakeToReal: map<IPKey, IPKey>
    var globalVersions: map<IPKey, Uint64>
    var hlc: Uint64
    ghost var leases: Table

    ghost function ShardView(): seq<Shard>
      reads shards
    {
      seq(|shards|, i requires 0 <= i < |shards| reads shards => Shard(shards[i].realToFake, shards[i].expiries))
    }

    /** What shards and indexes hold, as a value. */
    ghost function View(): State
      reads this, shards
    {
      State(ShardView(), globalFakeToReal, globalVersions)
    }

    ghost predicate Shape() {
      && |shards| == SHARDS
      && (forall i, j :: 0 <= i < j < SHARDS ==> shards[i] != shards[j])
      && WellFormed(g)
    }

    ghost predicate Valid()
      reads this, shards
    {
      Shape() && Represents(View(), leases, h)
    }

    function GetShard(realIP: IPKey): CacheShard
      requires |shards| == SHARDS
    {
      shards[Index(h, realIP)]
    }

    constructor (geometry: Geometry, hashing: Hashing)
      requires WellFormed(geometry)
      ensures Valid() && leases == map[] && hlc == 0 && fresh(shards)
      ensures g == geometry && h == hashing
    {
      var made := NewShards();
      shards, g, h := made, geometry, hashing;
      globalFakeToReal, globalVersions, hlc := map[], map[], 0;
      leases := map[];
      new;
      EmptyRepresents(View(), h);
    }

    /** `NewIPPool`, from any sizes and bases. */
    static method NewIPPool(sizeV4: Uint32, sizeV6: Uint32, baseV4: Option<Uint32>, baseV6: Option<Uint128>, hashing: Hashing)
      returns (pool: IPPool)
      ensures fresh(pool) && fresh(pool.shards)
      ensures pool.Valid() && pool.leases == map[] && pool.hlc == 0
      ensures pool.g == NewGeometry(sizeV4, sizeV6, baseV4, baseV6) && pool.h == hashing
    {
      NewGeometryWellFormed(sizeV4, sizeV6, baseV4, baseV6);
      pool := new IPPool(NewGeometry(sizeV4, sizeV6, baseV4, baseV6), hashing);
    }

    static method NewShards() returns (made: seq<CacheShard>)
      ensures |made| == SHARDS && fresh(made)
      ensures forall i, j :: 0 <= i < j < SHARDS ==> made[i] != made[j]
      ensures forall i :: 0 <= i < SHARDS ==> made[i].realToFake == map[] && made[i].expiries == map[]
    {
      made := [];
      while |made| < SHARDS
        invariant |made| <= SHARDS && fresh(made)
        invariant forall i, j :: 0 <= i < j < |made| ==> made[i] != made[j]
        invariant forall i :: 0 <= i < |made| ==> made[i].realToFake == map[] && made[i].expiries == map[]
      {
        var s := new CacheShard();
        made := made + [s];
      }
    }

    // --------------------------------------------------- writing to one shard

    method Delete(realIP: IPKey)
      requires Shape()
      modifies GetShard(realIP)
      ensures ShardView() == Drop(old(ShardView()), h, realIP)
    {
      var shard := GetShard(realIP);
      shard.realToFake := shard.realToFake - {realIP};
      shard.expiries := shard.expiries - {realIP};
    }

    method Store(realIP: IPKey, fakeIP: IPKey, ghost version: Uint64, expiresAt: int)
      requires Shape()
      modifies GetShard(realIP)
      ensures ShardView() == Put(old(ShardView()), h, realIP, Lease(fakeIP, version, expiresAt))
    {
      var shard := GetShard(realIP);
      shard.realToFake := shard.realToFake[realIP := fakeIP];
      shard.expiries := shard.expiries[realIP := expiresAt];
    }

    // ------------------------------------------------------------- AddMapping

    /** The versioned merge: takes the mapping exactly when it beats the holder of
        the fake and the other lease of the real, and evicts both. */
    method AddMapping(realIP: IPKey, fakeIP: IPKey, version: Uint64, expiresAt: int) returns (added: bool)
      requires Valid()
      modifies this`globalFakeToReal, this`globalVersions, this`leases, shards
      ensures Valid()
      ensures added == Accepts(old(leases), realIP, fakeIP, version)
      ensures leases == Merge(old(leases), realIP, fakeIP, version, expiresAt)
      ensures Taken(old(leases), leases, added, realIP, fakeIP, version, expiresAt)
    {
      MergeTakes(leases, realIP, fakeIP, version, expiresAt);
      AcceptsStoredExact(View(), leases, h, realIP, fakeIP, version);
      OwnFake(View(), leases, h, realIP);
      if fakeIP in globalFakeToReal {
        var existingReal := globalFakeToReal[fakeIP];
        if fakeIP in globalVersions {
          var existingVersion := globalVersions[fakeIP];
          if version < existingVersion {
            return false;
          }
          if version == existingVersion && realIP <= existingReal {
            return false;
          }
        }
      }
      var shardReal := GetShard(realIP);
      if realIP in shardReal.realToFake {
        var existingFake := shardReal.realToFake[realIP];
        if existingFake != fakeIP && existingFake in globalVersions {
          var existingVersion := globalVersions[existingFake];
          if version < existingVersion {
            return false;
          }
          if version == existingVersion && fakeIP <= existingFake {
            return false;
          }
        }
      }
      AddRepresents(View(), leases, h, realIP, Lease(fakeIP, version, expiresAt));
      Install(realIP, fakeIP, version, expiresAt);
      leases := Merge(leases, realIP, fakeIP, version, expiresAt);
      added := true;
    }

    /** The writes of an accepted mapping. */
    method Install(realIP: IPKey, fakeIP: IPKey, version: Uint64, expiresAt: int)
      requires Shape()
      modifies this`globalFakeToReal, this`globalVersions, shards
      ensures View() == AddStored(old(View()), h, realIP, Lease(fakeIP, version, expiresAt))
    {
      var oldRealToClear: Option<IPKey> := None;
      if fakeIP in globalFakeToReal && globalFakeToReal[fakeIP] != realIP {
        oldRealToClear := Some(globalFakeToReal[fakeIP]);
      }
      var shardReal := GetShard(realIP);
      if realIP in shardReal.realToFake && shardReal.realToFake[realIP] != fakeIP {
        var existingFake := shardReal.realToFake[realIP];
        globalFakeToReal := globalFakeToReal - {existingFake};
        globalVersions := globalVersions - {existingFake};
      }
      Replace(oldRealToClear, realIP, fakeIP, version, expiresAt);
      globalFakeToReal := globalFakeToReal[fakeIP := realIP];
      globalVersions := globalVersions[fakeIP := version];
    }

    /** The shard writes of an accepted mapping. */
    method Replace(oldRealToClear: Option<IPKey>, realIP: IPKey, fakeIP: IPKey, ghost version: Uint64, expiresAt: int)
      requires Shape()
      modifies shards
      ensures ShardView() ==
              Put(if oldRealToClear.Some? then Drop(old(ShardView()), h, oldRealToClear.value) else old(ShardView()),
                  h, realIP, Lease(fakeIP, version, expiresAt))
    {
      if oldRealToClear.Some? {
        Delete(oldRealToClear.value);
      }
      Store(realIP, fakeIP, version, expiresAt);
    }

    // ----------------------------------------------- RemoveMapping, TryReserve

    /** Takes a lease out of its shard and of both indexes. */
    method Forget(realIP: IPKey, fakeIP: IPKey)
      requires Valid() && MapsBack(leases, fakeIP, realIP)
      modifies this`globalFakeToReal, this`globalVersions, this`leases, shards
      ensures Valid()
      ensures leases == old(leases) - {realIP}
    {
      ghost var s := View();
      Delete(realIP);
      globalFakeToReal := globalFakeToReal - {fakeIP};
      globalVersions := globalVersions - {fakeIP};
      UnlinkRepresents(s, leases, h, realIP);
      leases := leases - {realIP};
      assert View() == Unlink(s, h, realIP, fakeIP);
    }

    /** Enters a lease for a real that has none under a fake that is free. */
    method Grant(realIP: IPKey, fakeIP: IPKey, version: Uint64, expiresAt: int)
      requires Valid() && realIP !in leases && fakeIP !in globalFakeToReal
      modifies this`globalFakeToReal, this`globalVersions, this`leases, shards
      ensures Valid()
      ensures leases == old(leases)[realIP := Lease(fakeIP, version, expiresAt)]
    {
      ghost var s, lease := View(), Lease(fakeIP, version, expiresAt);
      Store(realIP, fakeIP, version, expiresAt);
      globalFakeToReal := globalFakeToReal[fakeIP := realIP];
      globalVersions := globalVersions[fakeIP := version];
      LinkRepresents(s, leases, h, realIP, lease);
      leases := leases[realIP := lease];
      assert View() == Link(s, h, realIP, lease);
    }

    method RemoveMapping(realIP: IPKey, fakeIP: IPKey)
      requires Valid()
      modifies this`globalFakeToReal, this`globalVersions, this`leases, shards
      ensures Valid()
      ensures leases == Remove(old(leases), realIP, fakeIP)
      ensures forall r :: r in leases <==> r in old(leases) && !(r == realIP && old(leases)[r].fakeIP == fakeIP)
      ensures forall r :: r in leases ==> leases[r] == old(leases)[r]
    {
      OwnFake(View(), leases, h, realIP);
      var shardReal := GetShard(realIP);
      if realIP in shardReal.realToFake && shardReal.realToFake[realIP] == fakeIP {
        Forget(realIP, fakeIP);
      }
    }

    /** Extends a lease that has under five minutes left. */
    method Touch(realIP: IPKey, now: int, expiresAt: int)
      requires Valid() && realIP in leases
      modifies this`leases, GetShard(realIP)
      ensures Valid()
      ensures leases == Refresh(old(leases), realIP, now, expiresAt)
      ensures Extended(old(leases), leases, realIP, now, expiresAt)
    {
      ghost var s := View();
      OwnFake(s, leases, h, realIP);
      var shardReal := GetShard(realIP);
      if realIP in shardReal.expiries && now + FIVE_MINUTES > shardReal.expiries[realIP] {
        shardReal.expiries := shardReal.expiries[realIP := expiresAt];
        ExtendRepresents(s, leases, h, realIP, expiresAt);
        leases := Refresh(leases, realIP, now, expiresAt);
        assert View() == Sharded.Extend(s, h, realIP, expiresAt);
      }
    }

    /** The lease `realIP` has: kept, and perhaps extended, when live; removed otherwise. */
    method Existing(realIP: IPKey, now: int, later: int, expiresAt: int) returns (fake: Option<IPKey>)
      requires Valid()
      modifies this`globalFakeToReal, this`globalVersions, this`leases, shards
      ensures Valid()
      ensures fake.Some? <==> Live(old(leases), realIP, now)
      ensures fake.Some? <==> realIP in old(leases) && now < old(leases)[realIP].expiry
      ensures fake.Some? ==> fake.value == old(leases)[realIP].fakeIP && leases == Refresh(old(leases), realIP, later, expiresAt)
      ensures fake.Some? ==> Extended(old(leases), leases, realIP, later, expiresAt)
      ensures fake.None? ==> leases == old(leases) - {realIP}
    {
      OwnFake(View(), leases, h, realIP);
      var shardReal := GetShard(realIP);
      if realIP in shardReal.realToFake {
        var existingFake := shardReal.realToFake[realIP];
        if realIP !in shardReal.expiries || now < shardReal.expiries[realIP] {
          Touch(realIP, later, expiresAt);
          return Some(existingFake);
        }
        Forget(realIP, existingFake);
      }
      assert leases == old(leases) - {realIP};
      fake := None;
    }

    /** The clock is read at `now` and again at `later`. */
    method TryReserve(realIP: IPKey, fakeIP: IPKey, version: Uint64, expiresAt: int, now: int, later: int)
      returns (granted: Option<IPKey>)
      requires Valid()
      modifies this`globalFakeToReal, this`globalVersions, this`leases, shards
      ensures Valid()
      ensures (leases, granted) == Reserve(old(leases), realIP, fakeIP, version, expiresAt, now, later)
      ensures Reserved(old(leases), leases, granted, realIP, Lease(fakeIP, version, expiresAt), now, later)
    {
      ReserveGrants(leases, realIP, fakeIP, version, expiresAt, now, later);
      var existing := Existing(realIP, now, later, expiresAt);
      if existing.Some? {
        return existing;
      }
      RepresentsInjective(View(), leases, h);
      if fakeIP in globalFakeToReal {
        return None;
      }
      Grant(realIP, fakeIP, version, expiresAt);
      return Some(fakeIP);
    }

    // ------------------------------------------------------------ PruneExpired

    /** First phase, under the shard's read lock: what has expired in shard `i`. */
    method SnapshotExpired(i: nat, now: int) returns (expired: seq<(IPKey, IPKey)>)
      requires Valid() && i < SHARDS
      ensures ExpiredIn(leases, h, now, i, expired)
    {
      var shardReal := shards[i];
      var keys := shardReal.expiries.Keys;
      expired := [];
      while keys != {}
        invariant keys <= shardReal.expiries.Keys
        invariant forall r: IPKey, f: IPKey :: (r, f) in expired <==>
          r in shardReal.expiries && r !in keys && shardReal.expiries[r] < now
          && r in shardReal.realToFake && shardReal.realToFake[r] == f
        decreases |keys|
      {
        ghost var some := Sets.Pick(keys);
        var realKey :| realKey in keys;
        if shardReal.expiries[realKey] < now && realKey in shardReal.realToFake {
          expired := expired + [(realKey, shardReal.realToFake[realKey])];
        }
        keys := keys - {realKey};
      }
      forall r: IPKey, f: IPKey ensures (r, f) in expired <==>
        Expired(leases, r, now) && leases[r].fakeIP == f && Index(h, r) == i
      {
        InShard(View(), leases, h, i, r);
        OwnFake(View(), leases, h, r);
      }
    }

    /** Second phase, under both locks: removes those of the listed leases that are
        still there and still expired, however old the list is. */
    method PruneSnapshot(i: nat, now: int, expired: seq<(IPKey, IPKey)>)
      requires Valid() && i < SHARDS
      requires forall r: IPKey, f: IPKey :: (r, f) in expired ==> Index(h, r) == i
      modifies this`globalFakeToReal, this`globalVersions, this`leases, shards
      ensures Valid()
      ensures leases == PruneListed(old(leases), now, PairSet(expired))
      ensures forall r :: r in leases <==>
                r in old(leases) && !(old(leases)[r].expiry < now && (r, old(leases)[r].fakeIP) in expired)
      ensures forall r :: r in leases ==> leases[r] == old(leases)[r]
    {
      PruneNone(leases, now);
      assert PairSet(expired[..0]) == {};
      for k := 0 to |expired|
        invariant Valid()
        invariant leases == PruneListed(old(leases), now, PairSet(expired[..k]))
      {
        var (realKey, fakeKey) := expired[k];
        assert (realKey, fakeKey) in expired;
        PruneOneMore(old(leases), now, PairSet(expired[..k]), realKey, fakeKey);
        assert PairSet(expired[..k + 1]) == PairSet(expired[..k]) + {(realKey, fakeKey)};
        OwnFake(View(), leases, h, realKey);
        if realKey in shards[i].expiries && shards[i].expiries[realKey] < now {
          if realKey in shards[i].realToFake && shards[i].realToFake[realKey] == fakeKey {
            Forget(realKey, fakeKey);
          }
        }
      }
      assert expired[..|expired|] == expired;
    }

    /** Without interference the two phases remove exactly what has expired. */
    method PruneExpired(now: int)
      requires Valid()
      modifies this`globalFakeToReal, this`globalVersions, this`leases, shards
      ensures Valid()
      ensures leases == PruneAll(old(leases), now)
      ensures forall r :: r in leases <==> r in old(leases) && now <= old(leases)[r].expiry
      ensures forall r :: r in leases ==> leases[r] == old(leases)[r]
    {
      PrunedBounds(leases, h, now);
      for i := 0 to SHARDS
        invariant Valid()
        invariant leases == PrunedBelow(old(leases), h, now, i)
      {
        var expired := SnapshotExpired(i, now);
        PruneNextShard(old(leases), h, now, i, expired);
        if |expired| > 0 {
          PruneSnapshot(i, now, expired);
        } else {
          PruneNone(leases, now);
          assert PairSet(expired) == {};
        }
      }
    }

    // ----------------------------------------------------------------- reading

    method GetVersion(fakeIP: IPKey) returns (version: Uint64)
      requires Valid()
      ensures version == Convergence.VersionOf(leases, fakeIP)
    {
      RepresentsInjective(View(), leases, h);
      if fakeIP in globalVersions {
        version := globalVersions[fakeIP];
        ghost var r := globalFakeToReal[fakeIP];
        assert MapsBack(leases, fakeIP, r);
      } else {
        version := 0;
      }
    }

    /** As many as the entries of all shards together. */
    method GetActiveCount() returns (n: nat)
      requires Valid()
      ensures n == |leases| == SizesBelow(View().shards, SHARDS)
    {
      ActiveCount(View(), leases, h);
      n := |globalFakeToReal|;
    }

    /** The mappings sent to a newly connected peer. */
    method GetAllMappings() returns (mappings: seq<Convergence.Mapping>)
      requires Valid()
      ensures forall m :: m in mappings <==> Convergence.Holds(leases, m)
    {
      var keys := globalFakeToReal.Keys;
      mappings := [];
      while keys != {}
        invariant keys <= globalFakeToReal.Keys
        invariant forall m :: m in mappings <==>
          m.fakeIP in globalFakeToReal && m.fakeIP !in keys && m.realIP == globalFakeToReal[m.fakeIP]
          && m.version == globalVersions[m.fakeIP]
        decreases |keys|
      {
        ghost var some := Sets.Pick(keys);
        var fakeKey :| fakeKey in keys;
        mappings := mappings + [Convergence.Mapping(fakeKey, globalFakeToReal[fakeKey], globalVersions[fakeKey])];
        keys := keys - {fakeKey};
      }
    }

    // --------------------------------------------------- hybrid logical clock

    method GetNextVersion(wall: Uint64) returns (version: Uint64)
      modifies this`hlc
      ensures version == hlc == NextVersion(old(hlc), wall)
      ensures wall > old(hlc) ==> version == wall
      ensures wall <= old(hlc) < 0xffff_ffff_ffff_ffff ==> version == old(hlc) + 1
      ensures wall <= old(hlc) == 0xffff_ffff_ffff_ffff ==> version == 0
    {
      if wall > hlc {
        hlc := wall;
      } else {
        hlc := if hlc + 1 == POW64 then 0 else hlc + 1;
      }
      version := hlc;
    }

    method ObserveVersion(version: Uint64, wall: Uint64)
      modifies this`hlc
      ensures hlc == Observe(old(hlc), wall, version)
      ensures hlc >= old(hlc) && hlc >= wall && hlc >= version
      ensures hlc == old(hlc) || hlc == wall || hlc == version
    {
      if wall > hlc {
        hlc := wall;
      }
      if version > hlc {
        hlc := version;
      }
    }

    // -------------------------------------------------------------- allocation

    /** The probe loop for IPv4: steps over .0 and .255. */
    method ProbeV4(naturalOffset: Uint32) returns (found: Option<IPKey>)
      requires WellFormed(g)
      ensures found == Probe(g, globalFakeToReal.Keys, false, naturalOffset, 0)
    {
      var maxAttempts := g.size4;
      if maxAttempts > 1024 {
        maxAttempts := 1024;
      }
      var attempt: Uint32 := 0;
      while attempt < maxAttempts
        invariant attempt <= maxAttempts == Window(g, false)
        invariant Probe(g, globalFakeToReal.Keys, false, naturalOffset, 0) ==
                  Probe(g, globalFakeToReal.Keys, false, naturalOffset, attempt)
      {
        RemIsMod(Plus32(naturalOffset, attempt), g.size4);
        var offset := Plus32(naturalOffset, attempt) % g.size4;
        var candidate := Plus32(g.start4, offset);
        if !(candidate % 256 == 0 || candidate % 256 == 255) && V4Key(candidate) !in globalFakeToReal {
          return Some(V4Key(candidate));
        }
        attempt := attempt + 1;
      }
      found := None;
    }

    /** The probe loop for IPv6. */
    method ProbeV6(naturalOffset: Uint32) returns (found: Option<IPKey>)
      requires WellFormed(g)
      ensures found == Probe(g, globalFakeToReal.Keys, true, naturalOffset, 0)
    {
      var maxAttempts := g.size6;
      if maxAttempts > 1024 {
        maxAttempts := 1024;
      }
      var attempt: Uint32 := 0;
      while attempt < maxAttempts
        invariant attempt <= maxAttempts == Window(g, true)
        invariant Probe(g, globalFakeToReal.Keys, true, naturalOffset, 0) ==
                  Probe(g, globalFakeToReal.Keys, true, naturalOffset, attempt)
      {
        RemIsMod(Plus32(naturalOffset, attempt), g.size6);
        var offset := Plus32(naturalOffset, attempt) % g.size6;
        var candidate := Offset6(g, offset);
        if candidate !in globalFakeToReal {
          return Some(candidate);
        }
        attempt := attempt + 1;
      }
      found := None;
    }

    /** The natural fake if it is free, the first free candidate otherwise. */
    method FindFake(realIP: IPKey, isV6: bool) returns (found: Option<IPKey>)
      requires Valid()
      ensures found == Choose(g, h, Fakes(leases), realIP, isV6)
      ensures found.Some? ==> found.value !in globalFakeToReal
    {
      RepresentsInjective(View(), leases, h);
      var from := NaturalOffset(g, h, realIP, isV6);
      ProbeExact(g, globalFakeToReal.Keys, isV6, from, 0);
      var natural := Natural(g, h, realIP, isV6);
      if natural !in globalFakeToReal {
        found := Some(natural);
      } else if !isV6 {
        found := ProbeV4(from);
      } else {
        found := ProbeV6(from);
      }
    }

    ghost function RequestOf(isV6: bool, now: int, wall: IPKey -> Uint64): Request {
      Request(g, h, isV6, now, wall)
    }

    /** Issues a version and enters the lease. */
    method EnterLease(realIP: IPKey, fakeIP: IPKey, now: int, wall: Uint64)
      requires Valid() && realIP !in leases && fakeIP !in globalFakeToReal
      modifies this`globalFakeToReal, this`globalVersions, this`leases, this`hlc, shards
      ensures Valid()
      ensures hlc == NextVersion(old(hlc), wall)
      ensures leases == old(leases)[realIP := Lease(fakeIP, hlc, now + MAPPING_TTL)]
    {
      var version := GetNextVersion(wall);
      Grant(realIP, fakeIP, version, now + MAPPING_TTL);
    }

    /** A real without a lease: finds a fake and enters the lease under it. */
    method AllocateFresh(realIP: IPKey, isV6: bool, now: int, wall: IPKey -> Uint64)
      returns (fake: Option<IPKey>)
      requires Valid() && realIP !in leases
      modifies this`globalFakeToReal, this`globalVersions, this`leases, this`hlc, shards
      ensures Valid()
      ensures fake == Choose(g, h, Fakes(old(leases)), realIP, isV6)
      ensures Enter(RequestOf(isV6, now, wall), old(leases), old(hlc), realIP, fake) == Outcome(leases, hlc, fake, fake.Some?)
    {
      fake := FindFake(realIP, isV6);
      LeaseFound(realIP, fake, isV6, now, wall);
    }

    /** Enters the lease under the fake that was found, if one was. */
    method LeaseFound(realIP: IPKey, fake: Option<IPKey>, ghost isV6: bool, now: int, wall: IPKey -> Uint64)
      requires Valid() && realIP !in leases && (fake.Some? ==> fake.value !in globalFakeToReal)
      modifies this`globalFakeToReal, this`globalVersions, this`leases, this`hlc, shards
      ensures Valid()
      ensures Enter(RequestOf(isV6, now, wall), old(leases), old(hlc), realIP, fake) == Outcome(leases, hlc, fake, fake.Some?)
    {
      if fake.Some? {
        EnterLease(realIP, fake.value, now, wall(realIP));
        EnterLeased(RequestOf(isV6, now, wall), old(leases), old(hlc), realIP, fake.value, leases, hlc);
      }
    }

    /** The section under the global and the shard lock for one address. */
    method AllocateLocked(realIP: IPKey, isV6: bool, now: int, wall: IPKey -> Uint64)
      returns (fake: Option<IPKey>, isNew: bool)
      requires Valid()
      modifies this`globalFakeToReal, this`globalVersions, this`leases, this`hlc, shards
      ensures Valid()
      ensures AllocateOne(RequestOf(isV6, now, wall), old(leases), old(hlc), realIP) == Outcome(leases, hlc, fake, isNew)
    {
      fake := Existing(realIP, now, now, now + MAPPING_TTL);
      isNew := false;
      if fake.None? {
        FreshOutcome(RequestOf(isV6, now, wall), old(leases), old(hlc), realIP);
        fake := AllocateFresh(realIP, isV6, now, wall);
        isNew := fake.Some?;
      } else {
        LiveOutcome(RequestOf(isV6, now, wall), old(leases), old(hlc), realIP);
      }
    }

    /** One address of the batch: a lease with over five minutes left is read without
        the global lock, anything else goes through the locked section. */
    method FakeFor(realIP: IPKey, isV6: bool, now: int, wall: IPKey -> Uint64)
      returns (fake: Option<IPKey>, isNew: bool)
      requires Valid()
      modifies this`globalFakeToReal, this`globalVersions, this`leases, this`hlc, shards
      ensures Valid()
      ensures AllocateOne(RequestOf(isV6, now, wall), old(leases), old(hlc), realIP) == Outcome(leases, hlc, fake, isNew)
    {
      OwnFake(View(), leases, h, realIP);
      var shardReal := GetShard(realIP);
      if realIP in shardReal.realToFake && realIP in shardReal.expiries
         && now + FIVE_MINUTES < shardReal.expiries[realIP] {
        return Some(shardReal.realToFake[realIP]), false;
      }
      fake, isNew := AllocateLocked(realIP, isV6, now, wall);
    }

    /** One turn of the loop: records the fake, and the version when it is new. */
    method AllocateTurn(realIP: IPKey, isV6: bool, now: int, wall: IPKey -> Uint64,
                        result: map<IPKey, IPKey>, newMappings: map<IPKey, NewMapping>)
      returns (result': map<IPKey, IPKey>, newMappings': map<IPKey, NewMapping>, ok: bool)
      requires Valid()
      modifies this`globalFakeToReal, this`globalVersions, this`leases, this`hlc, shards
      ensures Valid()
      ensures Allocation.Extend(RequestOf(isV6, now, wall), Batch(old(leases), old(hlc), result, newMappings, true), realIP)
              == Batch(leases, hlc, result', newMappings', ok)
    {
      result', newMappings', ok := result, newMappings, true;
      var fake, isNew := FakeFor(realIP, isV6, now, wall);
      if fake.None? {
        ok := false;
      } else {
        result' := result[realIP := fake.value];
        if isNew {
          newMappings' := newMappings[realIP := NewMapping(fake.value, hlc)];
        }
      }
    }

    /** The loop over the sorted addresses; stops at the first that finds no fake. */
    method AllocateLoop(sorted: seq<IPKey>, isV6: bool, now: int, wall: IPKey -> Uint64)
      returns (result: map<IPKey, IPKey>, newMappings: map<IPKey, NewMapping>, ok: bool)
      requires Valid()
      modifies this`globalFakeToReal, this`globalVersions, this`leases, this`hlc, shards
      ensures Valid()
      ensures AllocateEach(RequestOf(isV6, now, wall), old(leases), old(hlc), sorted) ==
              Batch(leases, hlc, result, newMappings, ok)
    {
      result, newMappings, ok := map[], map[], true;
      var i := 0;
      while ok && i < |sorted|
        invariant 0 <= i <= |sorted| && Valid()
        invariant AllocateEach(RequestOf(isV6, now, wall), old(leases), old(hlc), sorted[..i]) ==
                  Batch(leases, hlc, result, newMappings, ok)
        decreases |sorted| - i
      {
        NextTurn(RequestOf(isV6, now, wall), old(leases), old(hlc), sorted, i);
        result, newMappings, ok := AllocateTurn(sorted[i], isV6, now, wall, result, newMappings);
        i := i + 1;
      }
      if ok {
        assert sorted[..i] == sorted;
      } else {
        StaysFailed(RequestOf(isV6, now, wall), old(leases), old(hlc), sorted, i);
      }
    }

    /** The batch, run without interference: the loop over the sorted addresses,
        and the rollback. */
    method GetFakeIPsForReals(reals: seq<IPKey>, isV6: bool, now: int, wall: IPKey -> Uint64)
      returns (result: map<IPKey, IPKey>, newMappings: map<IPKey, NewMapping>, ok: bool)
      requires Valid()
      modifies this`globalFakeToReal, this`globalVersions, this`leases, this`hlc, shards
      ensures Valid()
      ensures Allocate(RequestOf(isV6, now, wall), old(leases), old(hlc), reals) ==
              Batch(leases, hlc, result, newMappings, ok)
      ensures ok ==> forall r :: r in result <==> r in reals
      ensures ok ==> forall r :: r in result ==> r in leases && leases[r].fakeIP == result[r] && now < leases[r].expiry
      ensures ok ==> forall r :: r in newMappings <==> r in reals && !(r in old(leases) && now < old(leases)[r].expiry)
      ensures ok ==> forall r :: r in newMappings ==>
                r in leases &&
                leases[r] == Lease(newMappings[r].fakeIP, newMappings[r].version, now + 7_200_000_000_000)
      ensures !ok ==> forall r :: r in leases ==> SameLease(old(leases), leases, r)
    {
      RepresentsInjective(View(), leases, h);
      AllOrNothing(RequestOf(isV6, now, wall), leases, hlc, reals);
      AllocateTimes(RequestOf(isV6, now, wall), leases, hlc, reals);
      if |reals| == 0 {
        return map[], map[], false;
      }
      result, newMappings, ok := AllocateLoop(Sorting.Sort(reals, ByAddress), isV6, now, wall);
      if !ok {
        Undo(newMappings);
        result, newMappings := map[], map[];
      }
    }

    /** Removes the mappings a failed request created. */
    method Undo(newMappings: map<IPKey, NewMapping>)
      requires Valid()
      modifies this`globalFakeToReal, this`globalVersions, this`leases, shards
      ensures Valid()
      ensures leases == Rollback(old(leases), newMappings)
    {
      var keys := newMappings.Keys;
      ghost var done: map<IPKey, NewMapping> := map[];
      RollbackNone(leases);
      while keys != {}
        invariant Valid() && keys <= newMappings.Keys
        invariant forall r: IPKey :: r in done <==> r in newMappings && r !in keys
        invariant forall r: IPKey :: r in done ==> done[r] == newMappings[r]
        invariant leases == Rollback(old(leases), done)
        decreases |keys|
      {
        ghost var some := Sets.Pick(keys);
        var realIP :| realIP in keys;
        RollbackOneMore(old(leases), done, realIP, newMappings[realIP]);
        RemoveMapping(realIP, newMappings[realIP].fakeIP);
        done := done[realIP := newMappings[realIP]];
        keys := keys - {realIP};
      }
      forall r: IPKey ensures (r in done <==> r in newMappings) && (r in done ==> done[r] == newMappings[r]) {
        assert r !in keys;
      }
      Sets.SameMap(done, newMappings);
    }
  }
}
