/** Runs of one node: any interleaving of the pool's critical sections by any
    number of threads.  A thread may act on what it saw long ago: a prune commits
    a list taken earlier, and a received mapping is merged some time after its
    version was observed. */
module PoolRuns {
  import opened Address
  import opened Geometry
  import opened Leases
  import opened Allocation
  import opened Sharded
  import opened Convergence
  import opened Pool

  /** A prune between its two phases. */
  datatype Snapshot = Snapshot(shard: nat, now: int, pairs: seq<(IPKey, IPKey)>)

  /** `observed` are mappings between `ObserveVersion` and `AddMapping`; `seen` are
      all versions stored, issued or received so far. */
  datatype Node = Node(table: Table, clock: Uint64, observed: set<Mapping>,
                       prunes: map<nat, Snapshot>, seen: set<Uint64>)

  datatype Step =
    | Lock(realIP: IPKey, isV6: bool, now: int, wall: Uint64)
    | Issue(wall: Uint64)
    | Reserve(realIP: IPKey, fakeIP: IPKey, version: Uint64, expiresAt: int, now: int, later: int)
    | Release(realIP: IPKey, fakeIP: IPKey)
    | Skip(m: Mapping)
    | Hear(m: Mapping, wall: Uint64)
    | Take(m: Mapping, expiresAt: int)
    | Recover(realIP: IPKey, fakeIP: IPKey, expiresAt: int)
    | List(thread: nat, shard: nat, now: int, pairs: seq<(IPKey, IPKey)>)
    | Commit(thread: nat)

  function AtWall(wall: Uint64): IPKey -> Uint64 {
    (r: IPKey) => wall
  }

  datatype Env = Env(g: Geometry, h: Hashing)

  function RequestIn(env: Env, isV6: bool, now: int, wall: Uint64): Request {
    Request(env.g, env.h, isV6, now, AtWall(wall))
  }

  /** A step that cannot happen in a state changes nothing, so every sequence of
      steps is a run. */
  ghost predicate Enabled(env: Env, s: Node, step: Step)
    requires WellFormed(env.g)
  {
    match step
    case Reserve(_, _, version, _, _, _) => version in s.seen
    case Skip(m) => InSubnet(env.g, m.fakeIP) && VersionOf(s.table, m.fakeIP) > m.version
    case Hear(m, _) => InSubnet(env.g, m.fakeIP)
    case Take(m, _) => m in s.observed
    case List(_, i, now, pairs) => i < SHARDS && ExpiredIn(s.table, env.h, now, i, pairs)
    case Commit(thread) => thread in s.prunes
    case _ => true
  }

  ghost function Next(env: Env, s: Node, step: Step): Node
    requires WellFormed(env.g)
  {
    if !Enabled(env, s, step) then s else
    match step
    case Lock(r, isV6, now, wall) =>
      var o := AllocateOne(RequestIn(env, isV6, now, wall), s.table, s.clock, r);
      s.(table := o.table, clock := o.clock, seen := if o.isNew then s.seen + {o.clock} else s.seen)
    case Issue(wall) =>
      var v := NextVersion(s.clock, wall);
      s.(clock := v, seen := s.seen + {v})
    case Reserve(r, f, version, expiresAt, now, later) =>
      s.(table := Leases.Reserve(s.table, r, f, version, expiresAt, now, later).0)
    case Release(r, f) => s.(table := Remove(s.table, r, f))
    case Skip(m) => s.(seen := s.seen + {m.version})
    case Hear(m, wall) =>
      s.(clock := Observe(s.clock, wall, m.version), observed := s.observed + {m}, seen := s.seen + {m.version})
    case Take(m, expiresAt) => s.(table := Merge(s.table, m.realIP, m.fakeIP, m.version, expiresAt))
    case Recover(r, f, expiresAt) => s.(table := Merge(s.table, r, f, 0, expiresAt), seen := s.seen + {0})
    case List(thread, i, now, pairs) => s.(prunes := s.prunes[thread := Snapshot(i, now, pairs)])
    case Commit(thread) =>
      var p := s.prunes[thread];
      s.(table := PruneListed(s.table, p.now, PairSet(p.pairs)), prunes := s.prunes - {thread})
  }

  ghost function Run(env: Env, s: Node, steps: seq<Step>): Node
    requires WellFormed(env.g)
  {
    if steps == [] then s else Next(env, Run(env, s, steps[..|steps| - 1]), steps[|steps| - 1])
  }

  const START := Node(map[], 0, {}, map[], {})

  // --------------------------------------------------------- what every run keeps

  lemma LockInjective(env: Env, s: Node, r: IPKey, isV6: bool, now: int, wall: Uint64)
    requires WellFormed(env.g) && Injective(s.table)
    ensures Injective(AllocateOne(RequestIn(env, isV6, now, wall), s.table, s.clock, r).table)
  {
    var q := RequestIn(env, isV6, now, wall);
    ExtendProgress(q, s.table, Batch(s.table, s.clock, map[], map[], true), {}, r);
  }

  lemma NextInjective(env: Env, s: Node, step: Step)
    requires WellFormed(env.g) && Injective(s.table)
    ensures Injective(Next(env, s, step).table)
  {
    match step
    case Lock(r, isV6, now, wall) => LockInjective(env, s, r, isV6, now, wall);
    case Reserve(r, f, version, expiresAt, now, later) =>
      ReserveInjective(s.table, r, f, version, expiresAt, now, later);
    case Take(m, expiresAt) => MergeInjective(s.table, m.realIP, m.fakeIP, m.version, expiresAt);
    case Recover(r, f, expiresAt) => MergeInjective(s.table, r, f, 0, expiresAt);
    case _ =>
  }

  /** In every run no two reals share a fake. */
  lemma {:induction false} RunInjective(env: Env, steps: seq<Step>)
    requires WellFormed(env.g)
    ensures Injective(Run(env, START, steps).table)
  {
    if steps != [] {
      RunInjective(env, steps[..|steps| - 1]);
      NextInjective(env, Run(env, START, steps[..|steps| - 1]), steps[|steps| - 1]);
    }
  }

  // --------------------------------------------------------- the advertised net

  /** Recovery and reservation take their fakes unchecked from their callers. */
  function Unchecked(steps: seq<Step>): set<IPKey> {
    if steps == [] then {}
    else
      var init, last := Unchecked(steps[..|steps| - 1]), steps[|steps| - 1];
      match last
      case Recover(_, f, _) => init + {f}
      case Reserve(_, f, _, _, _, _) => init + {f}
      case _ => init
  }

  /** Every fake held is in the pool's nets or in `more`, and every mapping about to be
      merged is in the nets. */
  ghost predicate InNet(env: Env, s: Node, more: set<IPKey>)
    requires WellFormed(env.g)
  {
    && (forall r :: r in s.table ==> InSubnet(env.g, s.table[r].fakeIP) || s.table[r].fakeIP in more)
    && (forall m :: m in s.observed ==> InSubnet(env.g, m.fakeIP))
  }

  lemma LockInNet(env: Env, s: Node, more: set<IPKey>, r: IPKey, isV6: bool, now: int, wall: Uint64)
    requires WellFormed(env.g) && Fits4(env.g) && Fits6(env.g) && InNet(env, s, more)
    ensures var t := AllocateOne(RequestIn(env, isV6, now, wall), s.table, s.clock, r).table;
            forall k :: k in t ==> InSubnet(env.g, t[k].fakeIP) || t[k].fakeIP in more
  {
    var u := s.table - {r};
    if !Live(s.table, r, now) && Choose(env.g, env.h, Fakes(u), r, isV6).Some? {
      ChosenInSubnet(env.g, env.h, Fakes(u), r, isV6);
    }
  }

  lemma NextInNet(env: Env, s: Node, more: set<IPKey>, step: Step)
    requires WellFormed(env.g) && Fits4(env.g) && Fits6(env.g) && InNet(env, s, more)
    requires step.Recover? || step.Reserve? ==> step.fakeIP in more
    ensures InNet(env, Next(env, s, step), more)
  {
    if step.Lock? {
      LockInNet(env, s, more, step.realIP, step.isV6, step.now, step.wall);
    }
  }

  /** In every run of a pool that fits its nets, every fake is in the nets or was brought
      in by a recovery or a reservation. */
  lemma {:induction false} RunInNet(env: Env, steps: seq<Step>)
    requires WellFormed(env.g) && Fits4(env.g) && Fits6(env.g)
    ensures InNet(env, Run(env, START, steps), Unchecked(steps))
  {
    if steps != [] {
      RunInNet(env, steps[..|steps| - 1]);
      NextInNet(env, Run(env, START, steps[..|steps| - 1]), Unchecked(steps), steps[|steps| - 1]);
    }
  }

  /** That holds of every hash and every run. */
  ghost predicate StaysInNet(g: Geometry)
    requires WellFormed(g)
  {
    forall h: Hashing, steps: seq<Step> :: InNet(Env(g, h), Run(Env(g, h), START, steps), Unchecked(steps))
  }

  /** A first allocation enters the natural fake. */
  lemma FirstLock(env: Env, isV6: bool)
    requires WellFormed(env.g)
    ensures var f := Choose(env.g, env.h, {}, 0, isV6);
            var t := Run(env, START, [Lock(0, isV6, 0, 0)]).table;
            f.Some? && 0 in t && t[0].fakeIP == f.value
  {
    var steps, none: seq<Step> := [Lock(0, isV6, 0, 0)], [];
    assert steps[..0] == none && Run(env, START, none) == START;
    var u: Table := map[];
    assert u - {0} == u && Fakes(u) == {};
  }

  /** All runs stay in the nets if and only if the pools fit them. */
  lemma StaysInNetIff(g: Geometry)
    requires WellFormed(g)
    ensures StaysInNet(g) <==> Fits4(g) && Fits6(g)
  {
    if Fits4(g) && Fits6(g) {
      forall h: Hashing, steps: seq<Step> ensures InNet(Env(g, h), Run(Env(g, h), START, steps), Unchecked(steps)) {
        RunInNet(Env(g, h), steps);
      }
    } else {
      var off, isV6 := MisfitEscapes(g);
      var env, steps := Env(g, ConstantHash(off)), [Lock(0, isV6, 0, 0)];
      FirstLock(env, isV6);
      assert Unchecked(steps) == {};
      assert !InNet(env, Run(env, START, steps), Unchecked(steps));
    }
  }

  // ------------------------------------------------------------------- the clock

  /** The clock has reached every version stored, waiting or seen. */
  ghost predicate ClockAhead(s: Node) {
    && (forall v :: v in s.seen ==> v <= s.clock)
    && (forall r :: r in s.table ==> s.table[r].version in s.seen)
    && (forall m :: m in s.observed ==> m.version in s.seen)
  }

  predicate Issues(step: Step) {
    step.Lock? || step.Issue?
  }

  /** The largest number a step brings in from outside. */
  function Input(step: Step): Uint64 {
    match step
    case Lock(_, _, _, wall) => wall
    case Issue(wall) => wall
    case Hear(m, wall) => if m.version > wall then m.version else wall
    case _ => 0
  }

  lemma LockClock(env: Env, s: Node, r: IPKey, isV6: bool, now: int, wall: Uint64)
    requires WellFormed(env.g) && s.clock < POW64 - 1
    ensures var o := AllocateOne(RequestIn(env, isV6, now, wall), s.table, s.clock, r);
            && s.clock <= o.clock <= (if wall > s.clock then wall else s.clock + 1)
            && (o.isNew ==> s.clock < o.clock)
            && (forall k :: k in o.table ==>
                  || (o.isNew && o.table[k].version == o.clock)
                  || (k in s.table && o.table[k].version == s.table[k].version))
  {
  }

  lemma NextClockAhead(env: Env, s: Node, step: Step)
    requires WellFormed(env.g) && ClockAhead(s) && (Issues(step) ==> s.clock < POW64 - 1)
    ensures ClockAhead(Next(env, s, step)) && s.seen <= Next(env, s, step).seen
    ensures s.clock <= Next(env, s, step).clock <= if Input(step) > s.clock then Input(step) else s.clock + 1
  {
    if step.Lock? {
      LockClock(env, s, step.realIP, step.isV6, step.now, step.wall);
    }
  }

  /** No version is issued with the clock at the end of its 64 bits. */
  ghost predicate NeverAtEnd(env: Env, steps: seq<Step>)
    requires WellFormed(env.g)
  {
    steps == [] ||
    (var init := steps[..|steps| - 1];
     NeverAtEnd(env, init) && (Issues(steps[|steps| - 1]) ==> Run(env, START, init).clock < POW64 - 1))
  }

  /** In every such run the clock has reached every version stored, issued or received. */
  lemma {:induction false} RunClockAhead(env: Env, steps: seq<Step>)
    requires WellFormed(env.g) && NeverAtEnd(env, steps)
    ensures ClockAhead(Run(env, START, steps))
  {
    if steps != [] {
      RunClockAhead(env, steps[..|steps| - 1]);
      NextClockAhead(env, Run(env, START, steps[..|steps| - 1]), steps[|steps| - 1]);
    }
  }

  /** Inputs that leave the clock room for one tick a step suffice. */
  lemma {:induction false} RoomForTicks(env: Env, steps: seq<Step>, bound: Uint64)
    requires WellFormed(env.g) && bound + |steps| < POW64
    requires forall i :: 0 <= i < |steps| ==> Input(steps[i]) <= bound
    ensures NeverAtEnd(env, steps) && Run(env, START, steps).clock <= bound + |steps|
  {
    if steps != [] {
      var init := steps[..|steps| - 1];
      RoomForTicks(env, init, bound);
      RunClockAhead(env, init);
      NextClockAhead(env, Run(env, START, init), steps[|steps| - 1]);
    }
  }

  /** With the clock ahead, an issued version exceeds everything seen exactly when
      the clock is not at the end of its 64 bits. */
  lemma IssuedIsNewestIff(s: Node, wall: Uint64)
    requires ClockAhead(s) && s.seen != {}
    ensures (forall v :: v in s.seen ==> NextVersion(s.clock, wall) > v) <==> s.clock < POW64 - 1
  {
  }

  /** So in such a run every version issued exceeds all versions stored, issued or
      received before, those of skipped messages included. */
  lemma IssuedIsNewest(env: Env, steps: seq<Step>, step: Step)
    requires WellFormed(env.g) && NeverAtEnd(env, steps + [step]) && Issues(step)
    ensures var s, s' := Run(env, START, steps), Run(env, START, steps + [step]);
            && s.seen <= s'.seen
            && forall v, w :: v in s.seen && w in s'.seen - s.seen ==> v < w == s'.clock
  {
    assert (steps + [step])[..|steps|] == steps;
    RunClockAhead(env, steps);
    NextClockAhead(env, Run(env, START, steps), step);
  }

  /** One peer that sends the largest version resets the clock: the next version
      issued is 0. */
  lemma LargestVersionResets(env: Env, fakeIP: IPKey, realIP: IPKey, wall: Uint64, later: Uint64)
    requires WellFormed(env.g) && InSubnet(env.g, fakeIP)
    ensures var s := Next(env, START, Hear(Mapping(fakeIP, realIP, POW64 - 1), wall));
            POW64 - 1 in s.seen && Next(env, s, Issue(later)).clock == 0
  {
  }

  // --------------------------------------------------------------------- pruning

  /** Thread `t` does not list or commit a prune in `steps`. */
  predicate LeavesPrune(steps: seq<Step>, t: nat) {
    forall i :: 0 <= i < |steps| ==>
      match steps[i]
      case List(thread, _, _, _) => thread != t
      case Commit(thread) => thread != t
      case _ => true
  }

  lemma {:induction false} PruneWaits(env: Env, s: Node, steps: seq<Step>, t: nat)
    requires WellFormed(env.g) && LeavesPrune(steps, t) && t in s.prunes
    ensures t in Run(env, s, steps).prunes && Run(env, s, steps).prunes[t] == s.prunes[t]
  {
    if steps != [] {
      var init, last := steps[..|steps| - 1], steps[|steps| - 1];
      assert forall i :: 0 <= i < |init| ==> init[i] == steps[i];
      PruneWaits(env, s, init, t);
    }
  }

  /** However many steps of other threads lie between the two phases of a prune, it
      removes only leases that were expired, under the same fake, both when listed
      and when removed; a lease refreshed or moved in between stays. */
  lemma PruneOnlyExpired(env: Env, s: Node, t: nat, i: nat, now: int, pairs: seq<(IPKey, IPKey)>, between: seq<Step>)
    requires WellFormed(env.g) && Enabled(env, s, List(t, i, now, pairs)) && LeavesPrune(between, t)
    ensures var before := Run(env, Next(env, s, List(t, i, now, pairs)), between);
            var after := Next(env, before, Commit(t));
            && (forall r :: r in after.table ==> r in before.table && after.table[r] == before.table[r])
            && (forall r :: r in before.table && r !in after.table ==>
                  && Index(env.h, r) == i
                  && Expired(s.table, r, now) && Expired(before.table, r, now)
                  && s.table[r].fakeIP == before.table[r].fakeIP)
  {
    var listed := Next(env, s, List(t, i, now, pairs));
    PruneWaits(env, listed, between, t);
    var before := Run(env, listed, between);
    var after := Next(env, before, Commit(t));
    forall r | r in before.table && r !in after.table
      ensures Index(env.h, r) == i && Expired(s.table, r, now) && Expired(before.table, r, now)
      ensures s.table[r].fakeIP == before.table[r].fakeIP
    {
      assert (r, before.table[r].fakeIP) in PairSet(pairs);
      assert (r, before.table[r].fakeIP) in pairs;
    }
  }

  // ------------------------------------------------------- runs of the real thing

  ghost predicate Matches(pool: IPPool, s: Node)
    reads pool, pool.shards
  {
    pool.Valid() && pool.leases == s.table && pool.hlc == s.clock
  }

  /** One critical section of the sharded pool does to its leases and its clock what
      the step says, from any state and with any stale list. */
  method Perform(pool: IPPool, step: Step, ghost s: Node, prune: Snapshot)
    requires Matches(pool, s) && Enabled(Env(pool.g, pool.h), s, step)
    requires step.Commit? ==> prune == s.prunes[step.thread] && prune.shard < SHARDS
    requires step.Commit? ==> PairsIn(pool.h, prune)
    modifies pool, pool.shards
    ensures Matches(pool, Next(Env(pool.g, pool.h), s, step))
  {
    match step
    case Lock(r, isV6, now, wall) =>
      var fake, isNew := pool.AllocateLocked(r, isV6, now, AtWall(wall));
    case Issue(wall) =>
      var version := pool.GetNextVersion(wall);
    case Reserve(r, f, version, expiresAt, now, later) =>
      var granted := pool.TryReserve(r, f, version, expiresAt, now, later);
    case Release(r, f) =>
      pool.RemoveMapping(r, f);
    case Hear(m, wall) =>
      pool.ObserveVersion(m.version, wall);
    case Take(m, expiresAt) =>
      var added := pool.AddMapping(m.realIP, m.fakeIP, m.version, expiresAt);
    case Recover(r, f, expiresAt) =>
      var added := pool.AddMapping(r, f, 0, expiresAt);
    case Commit(thread) =>
      pool.PruneSnapshot(prune.shard, prune.now, prune.pairs);
    case Skip(_) =>
    case List(_, _, _, _) =>
  }

  /** Lists in waiting name reals of their own shard only. */
  ghost predicate PrunesSound(env: Env, prunes: map<nat, Snapshot>) {
    forall t :: t in prunes ==> prunes[t].shard < SHARDS && PairsIn(env.h, prunes[t])
  }

  ghost predicate PairsIn(h: Hashing, p: Snapshot) {
    forall r: IPKey, f: IPKey :: (r, f) in p.pairs ==> Index(h, r) == p.shard
  }

  lemma NextPrunesSound(env: Env, s: Node, step: Step)
    requires WellFormed(env.g) && PrunesSound(env, s.prunes)
    ensures PrunesSound(env, Next(env, s, step).prunes)
  {
    if step.List? && Enabled(env, s, step) {
      assert PairsIn(env.h, Snapshot(step.shard, step.now, step.pairs));
    }
  }

  /** The run can take each of its steps in turn. */
  ghost predicate Feasible(env: Env, steps: seq<Step>)
    requires WellFormed(env.g)
  {
    forall i :: 0 <= i < |steps| ==> Enabled(env, Run(env, START, steps[..i]), steps[i])
  }

  /** The prunes between their phases after a step. */
  function Pending(prunes: map<nat, Snapshot>, step: Step): map<nat, Snapshot> {
    match step
    case List(thread, shard, now, pairs) => prunes[thread := Snapshot(shard, now, pairs)]
    case Commit(thread) => prunes - {thread}
    case _ => prunes
  }

  lemma NextPending(env: Env, s: Node, step: Step)
    requires WellFormed(env.g) && Enabled(env, s, step)
    ensures Next(env, s, step).prunes == Pending(s.prunes, step)
  {
  }

  /** From an empty pool, every feasible interleaving of critical sections leaves
      shards and indexes representing exactly the leases and the clock of the run. */
  method Execute(pool: IPPool, steps: seq<Step>)
    requires Matches(pool, START) && Feasible(Env(pool.g, pool.h), steps)
    modifies pool, pool.shards
    ensures Matches(pool, Run(Env(pool.g, pool.h), START, steps))
  {
    ghost var env := Env(pool.g, pool.h);
    var prunes: map<nat, Snapshot> := map[];
    for i := 0 to |steps|
      invariant Matches(pool, Run(env, START, steps[..i]))
      invariant prunes == Run(env, START, steps[..i]).prunes && PrunesSound(env, prunes)
    {
      ghost var s := Run(env, START, steps[..i]);
      assert steps[..i + 1][..i] == steps[..i];
      NextPrunesSound(env, s, steps[i]);
      NextPending(env, s, steps[i]);
      var prune := if steps[i].Commit? then prunes[steps[i].thread] else Snapshot(0, 0, []);
      Perform(pool, steps[i], s, prune);
      prunes := Pending(prunes, steps[i]);
    }
    assert steps[..|steps|] == steps;
  }
}
