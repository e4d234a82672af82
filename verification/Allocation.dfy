/** Allocation of fakes for the addresses of one DNS answer: what one locked
    section does, the loop over the sorted addresses, and the rollback. */
module Allocation {
  import opened Address
  import opened Geometry
  import opened Exhaustion
  import opened Leases
  import Sets
  import Sorting

  // ------------------------------------------------- the hybrid logical clock

  /** `GetNextVersion`: the wall clock if it is ahead, one more otherwise. */
  function NextVersion(clock: Uint64, wall: Uint64): Uint64 {
    if wall > clock then wall else if clock + 1 == POW64 then 0 else clock + 1
  }

  /** `ObserveVersion`. */
  function Observe(clock: Uint64, wall: Uint64, version: Uint64): Uint64 {
    var c := if wall > clock then wall else clock;
    if version > c then version else c
  }

  // --------------------------------------------------------- one locked section

  /** What a request fixes once: addressing, family, and its single time reading;
      `wall` is the clock reading of each version issued. */
  datatype Request = Request(g: Geometry, h: Hashing, isV6: bool, now: int, wall: IPKey -> Uint64)

  predicate ValidRequest(q: Request) {
    q.g.size4 > 0 && q.g.size6 > 0
  }

  datatype Outcome = Outcome(table: Table, clock: Uint64, fakeIP: Option<IPKey>, isNew: bool)

  function AllocateOne(q: Request, t: Table, clock: Uint64, realIP: IPKey): Outcome
    requires ValidRequest(q)
  {
    if Live(t, realIP, q.now) then
      Outcome(Refresh(t, realIP, q.now, q.now + MAPPING_TTL), clock, Some(t[realIP].fakeIP), false)
    else
      var u := t - {realIP};
      Enter(q, u, clock, realIP, Choose(q.g, q.h, Fakes(u), realIP, q.isV6))
  }

  /** The outcome for a real without a lease, given the fake found for it. */
  function Enter(q: Request, u: Table, clock: Uint64, realIP: IPKey, found: Option<IPKey>): Outcome {
    if found.None? then Outcome(u, clock, None, false)
    else
      var v := NextVersion(clock, q.wall(realIP));
      Outcome(u[realIP := Lease(found.value, v, q.now + MAPPING_TTL)], v, found, true)
  }

  lemma EnterLeased(q: Request, u: Table, clock: Uint64, r: IPKey, f: IPKey, t: Table, v: Uint64)
    requires v == NextVersion(clock, q.wall(r)) && t == u[r := Lease(f, v, q.now + MAPPING_TTL)]
    ensures Enter(q, u, clock, r, Some(f)) == Outcome(t, v, Some(f), true)
  {
  }

  lemma LiveOutcome(q: Request, t: Table, clock: Uint64, r: IPKey)
    requires ValidRequest(q) && Live(t, r, q.now)
    ensures AllocateOne(q, t, clock, r) ==
            Outcome(Refresh(t, r, q.now, q.now + MAPPING_TTL), clock, Some(t[r].fakeIP), false)
  {
  }

  lemma FreshOutcome(q: Request, t: Table, clock: Uint64, r: IPKey)
    requires ValidRequest(q) && !Live(t, r, q.now)
    ensures AllocateOne(q, t, clock, r) ==
            Enter(q, t - {r}, clock, r, Choose(q.g, q.h, Fakes(t - {r}), r, q.isV6))
  {
  }

  // ------------------------------------------------------------------ the loop

  datatype NewMapping = NewMapping(fakeIP: IPKey, version: Uint64)

  datatype Batch = Batch(table: Table, clock: Uint64, result: map<IPKey, IPKey>,
                         created: map<IPKey, NewMapping>, ok: bool)

  /** The loop over `reals`; it stops at the first failure. */
  function AllocateEach(q: Request, t: Table, clock: Uint64, reals: seq<IPKey>): Batch
    requires ValidRequest(q)
  {
    if reals == [] then Batch(t, clock, map[], map[], true)
    else
      var b := AllocateEach(q, t, clock, reals[..|reals| - 1]);
      if !b.ok then b else Extend(q, b, reals[|reals| - 1])
  }

  lemma NextTurn(q: Request, t: Table, clock: Uint64, reals: seq<IPKey>, i: nat)
    requires ValidRequest(q) && i < |reals| && AllocateEach(q, t, clock, reals[..i]).ok
    ensures AllocateEach(q, t, clock, reals[..i + 1]) == Extend(q, AllocateEach(q, t, clock, reals[..i]), reals[i])
  {
    assert reals[..i + 1][..i] == reals[..i];
  }

  /** Once the loop has failed it changes nothing more. */
  lemma {:induction false} StaysFailed(q: Request, t: Table, clock: Uint64, reals: seq<IPKey>, i: nat)
    requires ValidRequest(q) && i <= |reals| && !AllocateEach(q, t, clock, reals[..i]).ok
    ensures AllocateEach(q, t, clock, reals) == AllocateEach(q, t, clock, reals[..i])
    decreases |reals| - i
  {
    if i == |reals| {
      assert reals[..i] == reals;
    } else {
      assert reals[..i + 1][..i] == reals[..i];
      StaysFailed(q, t, clock, reals, i + 1);
    }
  }

  function Extend(q: Request, b: Batch, realIP: IPKey): Batch
    requires ValidRequest(q)
  {
    var o := AllocateOne(q, b.table, b.clock, realIP);
    if o.fakeIP.None? then b.(table := o.table, ok := false)
    else Batch(o.table, o.clock, b.result[realIP := o.fakeIP.value],
               if o.isNew then b.created[realIP := NewMapping(o.fakeIP.value, o.clock)] else b.created, true)
  }

  /** `RemoveMapping` for each new mapping; a Go map gives no order, none matters. */
  function Rollback(t: Table, created: map<IPKey, NewMapping>): Table {
    map r | r in t && !(r in created && created[r].fakeIP == t[r].fakeIP) :: t[r]
  }

  /** One `RemoveMapping` of the rollback. */
  lemma RollbackOneMore(t: Table, done: map<IPKey, NewMapping>, r: IPKey, n: NewMapping)
    requires r !in done
    ensures Rollback(t, done[r := n]) == Remove(Rollback(t, done), r, n.fakeIP)
  {
  }

  lemma RollbackNone(t: Table)
    ensures Rollback(t, map[]) == t
  {
  }

  function ByAddress(a: IPKey, b: IPKey): bool {
    a <= b
  }

  /** `GetFakeIPsForReals` run without interference. */
  function Allocate(q: Request, t: Table, clock: Uint64, reals: seq<IPKey>): Batch
    requires ValidRequest(q)
  {
    if reals == [] then Batch(t, clock, map[], map[], false)
    else
      var b := AllocateEach(q, t, clock, Sorting.Sort(reals, ByAddress));
      if b.ok then b else Batch(Rollback(b.table, b.created), b.clock, map[], map[], false)
  }

  // ------------------------------------------------------- what a batch keeps

  /** The lease is the same up to its expiry. */
  predicate SameLease(t: Table, u: Table, r: IPKey) {
    r in t && r in u && t[r].fakeIP == u[r].fakeIP && t[r].version == u[r].version
  }

  /** Reals outside `seen` are untouched. */
  ghost predicate Untouched(t: Table, u: Table, seen: set<IPKey>) {
    forall r :: r !in seen ==> (r in u <==> r in t) && (r in t ==> u[r] == t[r])
  }

  /** Live leases keep fake and version and lose no time. */
  ghost predicate LiveKept(t: Table, u: Table, now: int) {
    forall r :: Live(t, r, now) ==> SameLease(t, u, r) && t[r].expiry <= u[r].expiry
  }

  /** Every lease is an old one or one created by this batch. */
  ghost predicate Accounted(t: Table, b: Batch) {
    forall r :: r in b.table && r !in b.created ==> SameLease(t, b.table, r)
  }

  ghost predicate CreatedHeld(t: Table, b: Batch, seen: set<IPKey>, now: int) {
    forall r :: r in b.created ==>
      && r in seen && !Live(t, r, now)
      && r in b.table && b.table[r].fakeIP == b.created[r].fakeIP && b.table[r].version == b.created[r].version
  }

  ghost predicate ResultLive(b: Batch, seen: set<IPKey>, now: int) {
    forall r :: r in b.result ==> r in seen && Live(b.table, r, now) && b.table[r].fakeIP == b.result[r]
  }

  /** All of `seen` is answered, and those that had no live lease were created. */
  ghost predicate Complete(t: Table, b: Batch, seen: set<IPKey>, now: int) {
    forall r :: r in seen ==> r in b.result && (!Live(t, r, now) ==> r in b.created)
  }

  /** Everything the loop maintains between the table it started from, `t`, and
      the batch `b` after the addresses `seen`. */
  ghost predicate Progress(t: Table, b: Batch, seen: set<IPKey>, now: int) {
    && Injective(b.table)
    && Untouched(t, b.table, seen)
    && LiveKept(t, b.table, now)
    && Accounted(t, b)
    && CreatedHeld(t, b, seen, now)
    && ResultLive(b, seen, now)
    && (b.ok ==> Complete(t, b, seen, now))
  }

  lemma StepLive(t: Table, b: Batch, seen: set<IPKey>, now: int, r: IPKey, expiry: int)
    requires b.ok && Progress(t, b, seen, now) && Live(b.table, r, now) && b.table[r].expiry <= expiry
    ensures var f := b.table[r].fakeIP;
            Progress(t, b.(table := b.table[r := b.table[r].(expiry := expiry)], result := b.result[r := f]),
                     seen + {r}, now)
  {
  }

  lemma StepFailed(t: Table, b: Batch, seen: set<IPKey>, now: int, r: IPKey)
    requires b.ok && Progress(t, b, seen, now) && !Live(b.table, r, now)
    ensures Progress(t, b.(table := b.table - {r}, ok := false), seen + {r}, now)
  {
  }

  lemma FreshInjective(t: Table, r: IPKey, lease: Lease)
    requires Injective(t) && lease.fakeIP !in Fakes(t - {r})
    ensures Injective((t - {r})[r := lease])
  {
  }

  ghost predicate SameElsewhere(u: Table, v: Table, r: IPKey) {
    forall x :: x != r ==> (x in u <==> x in v) && (x in u ==> u[x] == v[x])
  }

  lemma TableStep(t: Table, u: Table, v: Table, seen: set<IPKey>, now: int, r: IPKey)
    requires Untouched(t, u, seen) && LiveKept(t, u, now) && !Live(u, r, now) && SameElsewhere(u, v, r)
    ensures Untouched(t, v, seen + {r}) && LiveKept(t, v, now)
  {
  }

  lemma BatchStep(t: Table, b: Batch, c: Batch, seen: set<IPKey>, now: int, r: IPKey)
    requires b.ok && Progress(t, b, seen, now) && !Live(t, r, now)
    requires SameElsewhere(b.table, c.table, r) && Live(c.table, r, now)
    requires c.result == b.result[r := c.table[r].fakeIP]
    requires c.created == b.created[r := NewMapping(c.table[r].fakeIP, c.table[r].version)]
    ensures Accounted(t, c) && CreatedHeld(t, c, seen + {r}, now)
    ensures ResultLive(c, seen + {r}, now) && Complete(t, c, seen + {r}, now)
  {
  }

  lemma StepNew(t: Table, b: Batch, seen: set<IPKey>, now: int, r: IPKey, n: NewMapping, u: Table)
    requires b.ok && Progress(t, b, seen, now) && !Live(b.table, r, now)
    requires u == (b.table - {r})[r := Lease(n.fakeIP, n.version, now + MAPPING_TTL)] && Injective(u)
    ensures Progress(t, Batch(u, n.version, b.result[r := n.fakeIP], b.created[r := n], true), seen + {r}, now)
  {
    var c := Batch(u, n.version, b.result[r := n.fakeIP], b.created[r := n], true);
    assert !Live(t, r, now);
    TableStep(t, b.table, u, seen, now, r);
    BatchStep(t, b, c, seen, now, r);
  }

  lemma ChosenFree(q: Request, held: set<IPKey>, realIP: IPKey)
    requires ValidRequest(q) && Choose(q.g, q.h, held, realIP, q.isV6).Some?
    ensures Choose(q.g, q.h, held, realIP, q.isV6).value !in held
  {
    ProbeExact(q.g, held, q.isV6, NaturalOffset(q.g, q.h, realIP, q.isV6), 0);
  }

  lemma ExtendProgress(q: Request, t: Table, b: Batch, seen: set<IPKey>, r: IPKey)
    requires ValidRequest(q) && b.ok && Progress(t, b, seen, q.now)
    ensures Progress(t, Extend(q, b, r), seen + {r}, q.now)
  {
    var o := AllocateOne(q, b.table, b.clock, r);
    if Live(b.table, r, q.now) {
      StepLive(t, b, seen, q.now, r, o.table[r].expiry);
      assert o.table == b.table[r := b.table[r].(expiry := o.table[r].expiry)];
    } else {
      var u := b.table - {r};
      if o.fakeIP.None? {
        StepFailed(t, b, seen, q.now, r);
      } else {
        ChosenFree(q, Fakes(u), r);
        FreshInjective(b.table, r, o.table[r]);
        StepNew(t, b, seen, q.now, r, NewMapping(o.fakeIP.value, o.clock), o.table);
      }
    }
  }

  function Members(s: seq<IPKey>): set<IPKey> {
    set x | x in s
  }

  lemma {:induction false} EachProgress(q: Request, t: Table, clock: Uint64, reals: seq<IPKey>)
    requires ValidRequest(q) && Injective(t)
    ensures Progress(t, AllocateEach(q, t, clock, reals), Members(reals), q.now)
  {
    if reals != [] {
      var init, last := reals[..|reals| - 1], reals[|reals| - 1];
      EachProgress(q, t, clock, init);
      var b := AllocateEach(q, t, clock, init);
      assert Members(reals) == Members(init) + {last};
      if b.ok {
        ExtendProgress(q, t, b, Members(init), last);
      } else {
        Widen(t, b, Members(init), Members(reals), q.now);
      }
    }
  }

  lemma Widen(t: Table, b: Batch, seen: set<IPKey>, more: set<IPKey>, now: int)
    requires Progress(t, b, seen, now) && !b.ok && seen <= more
    ensures Progress(t, b, more, now)
  {
  }

  // ----------------------------------------------------------- the guarantees

  lemma SortedAddresses(reals: seq<IPKey>)
    ensures Sorting.TotalOrder(ByAddress)
    ensures Members(Sorting.Sort(reals, ByAddress)) == Members(reals)
  {
    Sorting.SortMembers(reals, ByAddress);
  }

  lemma RollbackRestores(t: Table, b: Batch, seen: set<IPKey>, now: int)
    requires Progress(t, b, seen, now)
    ensures var u := Rollback(b.table, b.created);
            Injective(u) && Untouched(t, u, seen) && LiveKept(t, u, now) && forall r :: r in u ==> SameLease(t, u, r)
  {
  }

  /** All or nothing.  On success every requested real has one live fake, live
      leases keep theirs, and the new mappings are those of exactly the reals that
      had no live lease, with the fake and the version stored.  On failure the table lies between the live leases and
      the table before: nothing new is left and nothing live is lost. */
  lemma AllOrNothing(q: Request, t: Table, clock: Uint64, reals: seq<IPKey>)
    requires ValidRequest(q) && Injective(t)
    ensures var b := Allocate(q, t, clock, reals);
            && Injective(b.table)
            && Untouched(t, b.table, Members(reals))
            && LiveKept(t, b.table, q.now)
            && (b.ok ==>
                  && (forall r :: r in b.result <==> r in reals)
                  && ResultLive(b, Members(reals), q.now)
                  && (forall r :: r in b.created <==> r in reals && !Live(t, r, q.now))
                  && CreatedHeld(t, b, Members(reals), q.now)
                  && Accounted(t, b))
            && (!b.ok ==> (forall r :: r in b.table ==> SameLease(t, b.table, r)) && b.result == map[] && b.created == map[])
  {
    if reals != [] {
      var sorted := Sorting.Sort(reals, ByAddress);
      SortedAddresses(reals);
      EachProgress(q, t, clock, sorted);
      var b := AllocateEach(q, t, clock, sorted);
      if !b.ok {
        RollbackRestores(t, b, Members(reals), q.now);
      }
    }
  }

  // ------------------------------------------------------- times and versions

  /** Every answered real has two hours from now, unless its lease was live with at
      least five minutes left; that one is as it was. */
  ghost predicate Timed(t: Table, b: Batch, now: int) {
    forall r :: r in b.result ==>
      r in b.table &&
      if r in t && now + 300_000_000_000 <= t[r].expiry then b.table[r] == t[r]
      else b.table[r].expiry == now + 7_200_000_000_000
  }

  lemma ExtendTimed(q: Request, t: Table, b: Batch, seen: set<IPKey>, r: IPKey)
    requires ValidRequest(q) && b.ok && Progress(t, b, seen, q.now) && Timed(t, b, q.now)
    ensures Extend(q, b, r).ok ==> Timed(t, Extend(q, b, r), q.now)
  {
  }

  lemma {:induction false} EachTimed(q: Request, t: Table, clock: Uint64, reals: seq<IPKey>)
    requires ValidRequest(q) && Injective(t)
    ensures AllocateEach(q, t, clock, reals).ok ==> Timed(t, AllocateEach(q, t, clock, reals), q.now)
  {
    if reals != [] {
      var init := reals[..|reals| - 1];
      EachTimed(q, t, clock, init);
      EachProgress(q, t, clock, init);
      var b := AllocateEach(q, t, clock, init);
      if b.ok { ExtendTimed(q, t, b, Members(init), reals[|reals| - 1]); }
    }
  }

  /** How long the leases of a successful request last. */
  lemma AllocateTimes(q: Request, t: Table, clock: Uint64, reals: seq<IPKey>)
    requires ValidRequest(q) && Injective(t)
    ensures Allocate(q, t, clock, reals).ok ==> Timed(t, Allocate(q, t, clock, reals), q.now)
  {
    EachTimed(q, t, clock, Sorting.Sort(reals, ByAddress));
  }

  /** Every new version lies after the clock before and not after the clock now, is at
      least the wall reading it was issued at, and the versions ascend with the reals. */
  ghost predicate Stamped(q: Request, b: Batch, clock: Uint64) {
    && clock <= b.clock
    && (forall r :: r in b.created ==> clock < b.created[r].version <= b.clock && q.wall(r) <= b.created[r].version)
    && (forall r, x :: r in b.created && x in b.created && r < x ==> b.created[r].version < b.created[x].version)
  }

  lemma ExtendStamped(q: Request, b: Batch, clock: Uint64, r: IPKey)
    requires ValidRequest(q) && Stamped(q, b, clock) && b.clock < POW64 - 1
    requires forall x :: x in b.created ==> x <= r
    ensures Stamped(q, Extend(q, b, r), clock)
    ensures Extend(q, b, r).clock <= if q.wall(r) > b.clock then q.wall(r) else b.clock + 1
  {
  }

  lemma {:induction false} EachStamped(q: Request, t: Table, clock: Uint64, reals: seq<IPKey>, bound: nat)
    requires ValidRequest(q) && clock <= bound && bound + |reals| < POW64 && forall r :: r in reals ==> q.wall(r) <= bound
    requires forall i, j :: 0 <= i < j < |reals| ==> reals[i] <= reals[j]
    ensures var b := AllocateEach(q, t, clock, reals); Stamped(q, b, clock) && b.clock <= bound + |reals|
    ensures forall r :: r in AllocateEach(q, t, clock, reals).created ==> r in reals
  {
    if reals != [] {
      var init := reals[..|reals| - 1];
      EachStamped(q, t, clock, init, bound);
      var b := AllocateEach(q, t, clock, init);
      if b.ok { ExtendStamped(q, b, clock, reals[|reals| - 1]); }
    }
  }

  /** Which versions a request reports, as long as the clock has room for them. */
  lemma AllocateStamps(q: Request, t: Table, clock: Uint64, reals: seq<IPKey>, bound: nat)
    requires ValidRequest(q) && clock <= bound && bound + |reals| < POW64 && forall r :: r in reals ==> q.wall(r) <= bound
    ensures var b := Allocate(q, t, clock, reals); Stamped(q, b, clock) && b.clock <= bound + |reals|
  {
    SortedAddresses(reals);
    Sorting.SortMembers(reals, ByAddress);
    Sorting.SortSorts(reals, ByAddress);
    EachStamped(q, t, clock, Sorting.Sort(reals, ByAddress), bound);
  }

  /** The order in which the addresses arrive does not matter. */
  lemma RequestOrderIrrelevant(q: Request, t: Table, clock: Uint64, a: seq<IPKey>, b: seq<IPKey>)
    requires ValidRequest(q) && multiset(a) == multiset(b)
    ensures Allocate(q, t, clock, a) == Allocate(q, t, clock, b)
  {
    SortedAddresses(a);
    Sorting.SortCanonical(a, b, ByAddress);
    assert |a| == |multiset(a)| && |b| == |multiset(b)|;
  }

  /** How many leases a failing allocation must have found: all addresses that may be
      given out, or those of a window. */
  ghost function Capacity(q: Request): nat {
    if Size(q.g, q.isV6) <= MAX_ATTEMPTS then |PoolAddresses(q.g, q.isV6)|
    else if q.isV6 then MAX_ATTEMPTS
    else if Regular(q.g.size4) then 1016 else 1015
  }

  /** The sizes up to which a window holds no address twice, and the IPv4 pool of all
      addresses but one. */
  ghost predicate PooledRequest(q: Request) {
    && WellFormed(q.g)
    && (if q.isV6 then q.g.size6 <= POW32 - MAX_ATTEMPTS + 1
        else q.g.size4 <= POW32 - MAX_ATTEMPTS || q.g.size4 == POW32 - 1)
  }

  lemma FailureNeedsCapacity(q: Request, t: Table, clock: Uint64, r: IPKey)
    requires PooledRequest(q) && Injective(t) && AllocateOne(q, t, clock, r).fakeIP.None?
    ensures |t - {r}| >= Capacity(q)
  {
    var u := t - {r};
    FakesCount(u);
    if Size(q.g, q.isV6) <= MAX_ATTEMPTS {
      SmallPoolFailsIff(q.g, q.h, Fakes(u), r, q.isV6);
      Sets.Fewer(PoolAddresses(q.g, q.isV6), Fakes(u));
    } else if q.isV6 {
      ProbeComplete6(q.g, q.h, Fakes(u), r);
    } else if q.g.size4 == POW32 - 1 {
      LastComplete(q.g, q.h, Fakes(u), r);
    } else {
      ProbeComplete4(q.g, q.h, Fakes(u), r);
    }
  }

  lemma CardinalityBound(t: Table, u: Table, seen: set<IPKey>, r: IPKey)
    requires Untouched(t, u, seen) && r !in seen
    ensures |u - {r}| <= |t| + |seen|
  {
    var v := u - {r};
    forall x: IPKey | x in v.Keys ensures x in t.Keys + seen {
      assert x in u;
    }
    Sets.Fewer(v.Keys, t.Keys + seen);
    assert |t.Keys + seen| <= |t.Keys| + |seen|;
  }

  lemma {:induction false} EachSucceeds(q: Request, t: Table, clock: Uint64, reals: seq<IPKey>)
    requires PooledRequest(q) && Injective(t) && |t| + |Members(reals)| <= Capacity(q)
    ensures AllocateEach(q, t, clock, reals).ok
  {
    if reals != [] {
      var init, r := reals[..|reals| - 1], reals[|reals| - 1];
      assert Members(reals) == Members(init) + {r};
      Sets.Fewer(Members(init), Members(reals));
      EachSucceeds(q, t, clock, init);
      EachProgress(q, t, clock, init);
      var b := AllocateEach(q, t, clock, init);
      if AllocateOne(q, b.table, b.clock, r).fakeIP.None? {
        assert r !in Members(init);
        FailureNeedsCapacity(q, b.table, b.clock, r);
        CardinalityBound(t, b.table, Members(init), r);
        assert false;
      }
    }
  }

  /** A request cannot fail while the pool holds few enough leases. */
  lemma AllocateSucceeds(q: Request, t: Table, clock: Uint64, reals: seq<IPKey>)
    requires PooledRequest(q) && Injective(t) && reals != [] && |t| + |Members(reals)| <= Capacity(q)
    ensures Allocate(q, t, clock, reals).ok
  {
    SortedAddresses(reals);
    EachSucceeds(q, t, clock, Sorting.Sort(reals, ByAddress));
  }

  // --------------------------------------- both families of one DNS answer

  datatype Answer = Answer(table: Table, clock: Uint64, v4: map<IPKey, IPKey>, v6: map<IPKey, IPKey>,
                           new4: map<IPKey, NewMapping>, new6: map<IPKey, NewMapping>, ok: bool)

  /** A family without addresses is not asked for. */
  function Family(q: Request, t: Table, clock: Uint64, reals: seq<IPKey>): Batch
    requires ValidRequest(q)
  {
    if reals == [] then Batch(t, clock, map[], map[], true) else Allocate(q, t, clock, reals)
  }

  /** IPv4 first; when IPv6 then fails the new IPv4 mappings are removed again. */
  function AllocateBoth(q4: Request, q6: Request, t: Table, clock: Uint64, r4: seq<IPKey>, r6: seq<IPKey>): Answer
    requires ValidRequest(q4) && ValidRequest(q6)
  {
    var a := Family(q4, t, clock, r4);
    if !a.ok then Answer(a.table, a.clock, map[], map[], map[], map[], false)
    else
      var b := Family(q6, a.table, a.clock, r6);
      if !b.ok then Answer(Rollback(b.table, a.created), b.clock, map[], map[], map[], map[], false)
      else Answer(b.table, b.clock, a.result, b.result, a.created, b.created, true)
  }

  /** A lookup in the answer leads back: the fake is held, live, by its real. */
  ghost predicate Answered(t: Table, m: map<IPKey, IPKey>, r: IPKey, now: int) {
    r in m && Live(t, r, now) && MapsBack(t, m[r], r)
  }

  /** A new mapping as reported: its real had no live lease, and the table has it. */
  ghost predicate Reported(t: Table, u: Table, n: map<IPKey, NewMapping>, now: int) {
    forall r :: r in n ==>
      && !(r in t && now < t[r].expiry)
      && r in u && u[r].fakeIP == n[r].fakeIP && u[r].version == n[r].version
  }

  lemma FamilyResult(q: Request, t: Table, clock: Uint64, reals: seq<IPKey>)
    requires ValidRequest(q) && Injective(t)
    ensures var b := Family(q, t, clock, reals);
            && Injective(b.table) && Untouched(t, b.table, Members(reals)) && LiveKept(t, b.table, q.now)
            && CreatedHeld(t, b, Members(reals), q.now) && Accounted(t, b)
            && (b.ok ==> forall r :: r in b.result.Keys <==> r in reals)
            && (b.ok ==> forall r :: r in reals ==> Answered(b.table, b.result, r, q.now))
            && (!b.ok ==> b.created == map[])
  {
    AllOrNothing(q, t, clock, reals);
  }

  lemma BothRollback(t: Table, a: Batch, b: Batch, s4: set<IPKey>, s6: set<IPKey>, now: int, now6: int)
    requires now <= now6
    requires Injective(b.table) && Untouched(t, a.table, s4) && LiveKept(t, a.table, now)
    requires CreatedHeld(t, a, s4, now) && Accounted(t, a)
    requires Untouched(a.table, b.table, s6) && LiveKept(a.table, b.table, now6)
    requires Accounted(a.table, b) && b.created == map[]
    ensures var u := Rollback(b.table, a.created);
            && Injective(u) && LiveKept(t, u, now6) && Untouched(t, u, s4 + s6)
            && forall r :: r in u ==> SameLease(t, u, r)
  {
  }

  lemma BothAnswered(t: Table, a: Batch, b: Batch, r4: seq<IPKey>, r6: seq<IPKey>, now4: int, now6: int)
    requires now4 <= now6 && forall r :: r in r4 ==> r !in r6
    requires Untouched(t, a.table, Members(r4)) && LiveKept(t, a.table, now4)
    requires Untouched(a.table, b.table, Members(r6)) && LiveKept(a.table, b.table, now6)
    requires forall r :: r in r4 ==> Answered(a.table, a.result, r, now4)
    ensures LiveKept(t, b.table, now6) && Untouched(t, b.table, Members(r4) + Members(r6))
    ensures forall r :: r in r4 ==> Answered(b.table, a.result, r, now4)
  {
  }

  lemma BothReported(t: Table, a: Batch, b: Batch, r4: seq<IPKey>, r6: seq<IPKey>, now4: int, now6: int)
    requires forall r :: r in r4 ==> r !in r6
    requires Untouched(t, a.table, Members(r4)) && Untouched(a.table, b.table, Members(r6))
    requires CreatedHeld(t, a, Members(r4), now4) && CreatedHeld(a.table, b, Members(r6), now6)
    requires Accounted(t, a) && Accounted(a.table, b)
    ensures Reported(t, b.table, a.created, now4) && Reported(t, b.table, b.created, now6)
    ensures forall r :: r in b.table && r !in a.created && r !in b.created ==> SameLease(t, b.table, r)
  {
  }

  /** The answer as a whole is all or nothing, including when IPv6 fails after
      IPv4 succeeded.  The IPv6 request reads the clock later than the IPv4 one. */
  lemma AnswerAllOrNothing(q4: Request, q6: Request, t: Table, clock: Uint64, r4: seq<IPKey>, r6: seq<IPKey>)
    requires ValidRequest(q4) && ValidRequest(q6) && Injective(t) && q4.now <= q6.now
    requires forall r :: r in r4 ==> r !in r6
    ensures var a := AllocateBoth(q4, q6, t, clock, r4, r6);
            && Injective(a.table) && LiveKept(t, a.table, q6.now)
            && Untouched(t, a.table, Members(r4) + Members(r6))
            && (a.ok ==>
                  && (forall r :: r in a.v4.Keys <==> r in r4) && (forall r :: r in a.v6.Keys <==> r in r6)
                  && (forall r :: r in r4 ==> Answered(a.table, a.v4, r, q4.now))
                  && (forall r :: r in r6 ==> Answered(a.table, a.v6, r, q6.now))
                  && Reported(t, a.table, a.new4, q4.now) && Reported(t, a.table, a.new6, q6.now)
                  && (forall r :: r in a.table && r !in a.new4 && r !in a.new6 ==> SameLease(t, a.table, r)))
            && (!a.ok ==> forall r :: r in a.table ==> SameLease(t, a.table, r))
  {
    FamilyResult(q4, t, clock, r4);
    var a := Family(q4, t, clock, r4);
    if a.ok {
      FamilyResult(q6, a.table, a.clock, r6);
      var b := Family(q6, a.table, a.clock, r6);
      if b.ok {
        BothAnswered(t, a, b, r4, r6, q4.now, q6.now);
        BothReported(t, a, b, r4, r6, q4.now, q6.now);
      } else {
        BothRollback(t, a, b, Members(r4), Members(r6), q4.now, q6.now);
      }
    } else {
      assert a.created == map[];
    }
  }
}
