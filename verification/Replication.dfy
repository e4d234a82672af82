/** Receiving mappings from a peer: the checks in front of the merge, the merge, and
    the entry made in the kernel's fake-to-real map for every mapping accepted. */
module Replication {
  import opened Address
  import opened Geometry
  import opened Leases
  import opened Allocation
  import opened Convergence
  import opened Pool

  /** A mapping as it arrives; an address may be missing. */
  datatype Wire = Wire(fakeIP: Option<IPKey>, realIP: Option<IPKey>, version: Uint64)

  /** Complete, and with a fake inside the pool's nets. */
  predicate Admissible(g: Geometry, w: Wire)
    requires g.size4 > 0 && g.size6 > 0
  {
    w.fakeIP.Some? && w.realIP.Some? && InSubnet(g, w.fakeIP.value)
  }

  function Decode(w: Wire): Mapping
    requires w.fakeIP.Some? && w.realIP.Some?
  {
    Mapping(w.fakeIP.value, w.realIP.value, w.version)
  }

  /** The deliveries a batch amounts to; the clock is read for every mapping. */
  function Deliveries(g: Geometry, ws: seq<Wire>, expiresAt: nat -> int): seq<Delivery>
    requires g.size4 > 0 && g.size6 > 0
  {
    if ws == [] then []
    else
      var i := |ws| - 1;
      Deliveries(g, ws[..i], expiresAt) +
      if Admissible(g, ws[i]) then [Delivery(Decode(ws[i]), expiresAt(i))] else []
  }

  lemma DeliveriesStep(g: Geometry, ws: seq<Wire>, i: nat, expiresAt: nat -> int)
    requires g.size4 > 0 && g.size6 > 0 && i < |ws|
    ensures Deliveries(g, ws[..i + 1], expiresAt) ==
            if Admissible(g, ws[i]) then Deliveries(g, ws[..i], expiresAt) + [Delivery(Decode(ws[i]), expiresAt(i))]
            else Deliveries(g, ws[..i], expiresAt)
  {
    assert ws[..i + 1][..i] == ws[..i];
  }

  lemma DeliverOneMore(t: Table, ds: seq<Delivery>, d: Delivery)
    ensures DeliverAll(t, ds + [d]) == Apply(DeliverAll(t, ds), d)
  {
  }

  // ------------------------------------------------------------------- the clock

  /** The clock after one mapping; a version the check skips is not observed. */
  ghost function Heard(t: Table, clock: Uint64, wall: Uint64, m: Mapping): Uint64 {
    if VersionOf(t, m.fakeIP) > m.version then clock else Observe(clock, wall, m.version)
  }

  ghost function ClockAfter(g: Geometry, t: Table, clock: Uint64, ws: seq<Wire>, wall: nat -> Uint64, expiresAt: nat -> int): Uint64
    requires g.size4 > 0 && g.size6 > 0
  {
    if ws == [] then clock
    else
      var i := |ws| - 1;
      var before := ClockAfter(g, t, clock, ws[..i], wall, expiresAt);
      if Admissible(g, ws[i])
      then Heard(DeliverAll(t, Deliveries(g, ws[..i], expiresAt)), before, wall(i), Decode(ws[i]))
      else before
  }

  lemma ClockStep(g: Geometry, t: Table, clock: Uint64, ws: seq<Wire>, i: nat, wall: nat -> Uint64, expiresAt: nat -> int)
    requires g.size4 > 0 && g.size6 > 0 && i < |ws|
    ensures var before := ClockAfter(g, t, clock, ws[..i], wall, expiresAt);
            ClockAfter(g, t, clock, ws[..i + 1], wall, expiresAt) ==
            if Admissible(g, ws[i])
            then Heard(DeliverAll(t, Deliveries(g, ws[..i], expiresAt)), before, wall(i), Decode(ws[i]))
            else before
  {
    assert ws[..i + 1][..i] == ws[..i];
  }

  /** The clock has reached every stored version. */
  ghost predicate Reached(t: Table, clock: Uint64) {
    forall r :: r in t ==> t[r].version <= clock
  }

  lemma HeardReached(t: Table, clock: Uint64, wall: Uint64, m: Mapping, expiresAt: int)
    requires Reached(t, clock)
    ensures var after := Heard(t, clock, wall, m);
            clock <= after && m.version <= after && Reached(Apply(t, Delivery(m, expiresAt)), after)
  {
    if VersionOf(t, m.fakeIP) > m.version { StaleRejected(t, m); }
  }

  /** After a message the clock has reached every version stored and every admissible
      version received, those of skipped mappings included. */
  lemma {:induction false} MessageReached(g: Geometry, t: Table, clock: Uint64, ws: seq<Wire>, wall: nat -> Uint64,
                                          expiresAt: nat -> int)
    requires g.size4 > 0 && g.size6 > 0 && Reached(t, clock)
    ensures var after := ClockAfter(g, t, clock, ws, wall, expiresAt);
            && clock <= after && Reached(DeliverAll(t, Deliveries(g, ws, expiresAt)), after)
            && forall w :: w in ws && Admissible(g, w) ==> w.version <= after
  {
    if ws != [] {
      var i := |ws| - 1;
      MessageReached(g, t, clock, ws[..i], wall, expiresAt);
      var u, before := DeliverAll(t, Deliveries(g, ws[..i], expiresAt)), ClockAfter(g, t, clock, ws[..i], wall, expiresAt);
      assert ws == ws[..i] + [ws[i]];
      if Admissible(g, ws[i]) {
        var m := Decode(ws[i]);
        DeliverOneMore(t, Deliveries(g, ws[..i], expiresAt), Delivery(m, expiresAt(i)));
        HeardReached(u, before, wall(i), m, expiresAt(i));
      } else {
        assert Deliveries(g, ws, expiresAt) == Deliveries(g, ws[..i], expiresAt);
      }
    }
  }

  // ------------------------------------------------------------------ the kernel

  /** The kernel translates every held fake to the real that holds it. */
  ghost predicate Follows(kernel: map<IPKey, IPKey>, t: Table) {
    forall r :: r in t ==> t[r].fakeIP in kernel && kernel[t[r].fakeIP] == r
  }

  function Program(kernel: map<IPKey, IPKey>, ms: seq<Mapping>): map<IPKey, IPKey> {
    if ms == [] then kernel else Program(kernel, ms[..|ms| - 1])[ms[|ms| - 1].fakeIP := ms[|ms| - 1].realIP]
  }

  lemma ProgramOneMore(kernel: map<IPKey, IPKey>, ms: seq<Mapping>, m: Mapping)
    ensures Program(kernel, ms + [m]) == Program(kernel, ms)[m.fakeIP := m.realIP]
  {
  }

  lemma MergeFollows(kernel: map<IPKey, IPKey>, t: Table, m: Mapping, expiresAt: int)
    requires Follows(kernel, t)
    ensures var t' := Merge(t, m.realIP, m.fakeIP, m.version, expiresAt);
            if Accepts(t, m.realIP, m.fakeIP, m.version) then Follows(kernel[m.fakeIP := m.realIP], t')
            else t' == t
  {
  }

  // ----------------------------------------------------------------- the receive

  /** The clock after a mapping has been looked at: unchanged when the fake is held with a
      higher version, otherwise the largest of clock, wall reading and version. */
  ghost predicate ClockHears(t: Table, clock: Uint64, after: Uint64, wall: Uint64, m: Mapping) {
    if exists r :: r in t && t[r].fakeIP == m.fakeIP && t[r].version > m.version then after == clock
    else
      && after >= clock && after >= wall && after >= m.version
      && (after == clock || after == wall || after == m.version)
  }

  lemma HeardHears(t: Table, clock: Uint64, wall: Uint64, m: Mapping)
    requires Injective(t)
    ensures ClockHears(t, clock, Heard(t, clock, wall, m), wall, m)
  {
    if r :| r in t && t[r].fakeIP == m.fakeIP {
      assert VersionOf(t, m.fakeIP) == t[r].version;
    }
  }

  /** One mapping: version check, clock, merge. */
  method ReceiveOne(pool: IPPool, m: Mapping, wall: Uint64, expiresAt: int) returns (added: bool)
    requires pool.Valid()
    modifies pool, pool.shards
    ensures pool.Valid()
    ensures pool.leases == Apply(old(pool.leases), Delivery(m, expiresAt))
    ensures added <==> Accepts(old(pool.leases), m.realIP, m.fakeIP, m.version)
    ensures pool.hlc == Heard(old(pool.leases), old(pool.hlc), wall, m)
  {
    PreCheckRedundant(pool.leases, Delivery(m, expiresAt));
    var currentVersion := pool.GetVersion(m.fakeIP);
    if currentVersion > m.version {
      StaleRejected(pool.leases, m);
      return false;
    }
    pool.ObserveVersion(m.version, wall);
    added := pool.AddMapping(m.realIP, m.fakeIP, m.version, expiresAt);
  }

  lemma StaleRejected(t: Table, m: Mapping)
    requires VersionOf(t, m.fakeIP) > m.version
    ensures !Accepts(t, m.realIP, m.fakeIP, m.version)
  {
  }

  /** Table and clock before or after a mapping of a message. */
  datatype View = View(table: Table, clock: Uint64)

  /** What becomes of one mapping of a message: with both addresses and a fake in the
      pool's nets it is looked at and merged, otherwise it is passed over. */
  ghost predicate Processed(g: Geometry, s: View, u: View, w: Wire, wall: Uint64, expiresAt: int, added: bool)
    requires g.size4 > 0 && g.size6 > 0
  {
    if w.fakeIP.Some? && w.realIP.Some? && InSubnet(g, w.fakeIP.value)
    then
      && Taken(s.table, u.table, added, w.realIP.value, w.fakeIP.value, w.version, expiresAt)
      && ClockHears(s.table, s.clock, u.clock, wall, Mapping(w.fakeIP.value, w.realIP.value, w.version))
    else u == s && !added
  }

  /** The states a message goes through, and which of its mappings are merged. */
  ghost predicate Trace(g: Geometry, ws: seq<Wire>, wall: nat -> Uint64, expiresAt: nat -> int,
                        views: seq<View>, added: seq<bool>)
    requires g.size4 > 0 && g.size6 > 0
  {
    && |views| == |ws| + 1 && |added| == |ws|
    && forall i :: 0 <= i < |ws| ==> Processed(g, views[i], views[i + 1], ws[i], wall(i), expiresAt(i), added[i])
  }

  /** The merged mappings, in order. */
  ghost function Merged(ws: seq<Wire>, added: seq<bool>): seq<Mapping>
    requires |ws| == |added|
  {
    if ws == [] then []
    else
      var i := |ws| - 1;
      Merged(ws[..i], added[..i]) + if added[i] then Carried(ws[i]) else []
  }

  /** The mapping a complete entry carries. */
  function Carried(w: Wire): seq<Mapping> {
    if w.fakeIP.Some? && w.realIP.Some? then [Mapping(w.fakeIP.value, w.realIP.value, w.version)] else []
  }

  /** The trace accounts for the whole table and the clock. */
  lemma {:induction false} TraceDelivers(g: Geometry, ws: seq<Wire>, wall: nat -> Uint64, expiresAt: nat -> int,
                                         views: seq<View>, added: seq<bool>)
    requires g.size4 > 0 && g.size6 > 0 && Trace(g, ws, wall, expiresAt, views, added) && Injective(views[0].table)
    ensures Injective(views[|ws|].table)
    ensures views[|ws|].table == DeliverAll(views[0].table, Deliveries(g, ws, expiresAt))
    ensures views[|ws|].clock == ClockAfter(g, views[0].table, views[0].clock, ws, wall, expiresAt)
  {
    if ws != [] {
      var i := |ws| - 1;
      TraceDelivers(g, ws[..i], wall, expiresAt, views[..i + 1], added[..i]);
      assert ws[..i + 1] == ws;
      DeliveriesStep(g, ws, i, expiresAt);
      ProcessedDelivers(g, views[i], views[i + 1], ws[i], wall(i), expiresAt(i), added[i]);
      if Admissible(g, ws[i]) {
        DeliverOneMore(views[0].table, Deliveries(g, ws[..i], expiresAt), Delivery(Decode(ws[i]), expiresAt(i)));
      }
    }
  }

  lemma ProcessedDelivers(g: Geometry, s: View, u: View, w: Wire, wall: Uint64, expiresAt: int, added: bool)
    requires g.size4 > 0 && g.size6 > 0 && Processed(g, s, u, w, wall, expiresAt, added) && Injective(s.table)
    ensures Injective(u.table)
    ensures u == if Admissible(g, w)
                 then View(Apply(s.table, Delivery(Decode(w), expiresAt)), Heard(s.table, s.clock, wall, Decode(w)))
                 else s
  {
    if Admissible(g, w) {
      var m := Decode(w);
      MergeTakes(s.table, m.realIP, m.fakeIP, m.version, expiresAt);
      TakenUnique(s.table, u.table, Apply(s.table, Delivery(m, expiresAt)), added,
                  Accepts(s.table, m.realIP, m.fakeIP, m.version), m.realIP, m.fakeIP, m.version, expiresAt);
      MergeInjective(s.table, m.realIP, m.fakeIP, m.version, expiresAt);
      HeardHears(s.table, s.clock, wall, m);
    }
  }

  /** Entry `i` gave its real the lease. */
  ghost predicate GaveLease(g: Geometry, w: Wire, r: IPKey, lease: Lease, expiresAt: int)
    requires g.size4 > 0 && g.size6 > 0
  {
    && w.realIP == Some(r) && w.fakeIP == Some(lease.fakeIP) && w.version == lease.version && lease.expiry == expiresAt
    && InSubnet(g, lease.fakeIP)
  }

  /** After a message every lease is an old one, untouched, or was given by an entry that
      carried it, with the expiry of that entry. */
  lemma {:induction false} LeaseOrigin(g: Geometry, ws: seq<Wire>, wall: nat -> Uint64, expiresAt: nat -> int,
                                       views: seq<View>, added: seq<bool>, r: IPKey)
    requires g.size4 > 0 && g.size6 > 0 && Trace(g, ws, wall, expiresAt, views, added) && r in views[|ws|].table
    ensures || (r in views[0].table && views[|ws|].table[r] == views[0].table[r])
            || exists i :: 0 <= i < |ws| && GaveLease(g, ws[i], r, views[|ws|].table[r], expiresAt(i))
  {
    if ws != [] {
      var i := |ws| - 1;
      assert Processed(g, views[i], views[i + 1], ws[i], wall(i), expiresAt(i), added[i]);
      if added[i] && ws[i].realIP == Some(r) {
        assert GaveLease(g, ws[i], r, views[|ws|].table[r], expiresAt(i));
      } else {
        LeaseOrigin(g, ws[..i], wall, expiresAt, views[..i + 1], added[..i], r);
      }
    }
  }

  /** A whole message, mapping by mapping.  `applied` is what goes to the kernel, in
      order: a kernel map that followed the pool before follows it afterwards. */
  method ReceiveMappings(pool: IPPool, ws: seq<Wire>, wall: nat -> Uint64, expiresAt: nat -> int)
    returns (applied: seq<Mapping>, ghost views: seq<View>, ghost added: seq<bool>)
    requires pool.Valid()
    modifies pool, pool.shards
    ensures pool.Valid()
    ensures pool.leases == DeliverAll(old(pool.leases), Deliveries(pool.g, ws, expiresAt))
    ensures pool.hlc == ClockAfter(pool.g, old(pool.leases), old(pool.hlc), ws, wall, expiresAt)
    ensures Trace(pool.g, ws, wall, expiresAt, views, added)
    ensures views[0] == View(old(pool.leases), old(pool.hlc)) && views[|ws|] == View(pool.leases, pool.hlc)
    ensures applied == Merged(ws, added)
    ensures forall kernel :: Follows(kernel, old(pool.leases)) ==> Follows(Program(kernel, applied), pool.leases)
  {
    applied, views, added := [], [View(pool.leases, pool.hlc)], [];
    Sharded.RepresentsInjective(pool.View(), pool.leases, pool.h);
    for i := 0 to |ws|
      invariant pool.Valid()
      invariant Trace(pool.g, ws[..i], wall, expiresAt, views, added)
      invariant views[0] == View(old(pool.leases), old(pool.hlc)) && views[i] == View(pool.leases, pool.hlc)
      invariant applied == Merged(ws[..i], added)
      invariant forall kernel :: Follows(kernel, old(pool.leases)) ==> Follows(Program(kernel, applied), pool.leases)
    {
      var taken: bool;
      applied, taken := ReceiveWire(pool, ws[i], wall(i), expiresAt(i), applied);
      TraceStep(pool.g, ws, i, wall, expiresAt, views, added, View(pool.leases, pool.hlc), taken);
      views, added := views + [View(pool.leases, pool.hlc)], added + [taken];
    }
    assert ws[..|ws|] == ws;
    TraceDelivers(pool.g, ws, wall, expiresAt, views, added);
  }

  lemma TraceStep(g: Geometry, ws: seq<Wire>, i: nat, wall: nat -> Uint64, expiresAt: nat -> int,
                  views: seq<View>, added: seq<bool>, next: View, taken: bool)
    requires g.size4 > 0 && g.size6 > 0 && i < |ws| && Trace(g, ws[..i], wall, expiresAt, views, added)
    requires Processed(g, views[i], next, ws[i], wall(i), expiresAt(i), taken)
    ensures Trace(g, ws[..i + 1], wall, expiresAt, views + [next], added + [taken])
    ensures Merged(ws[..i + 1], added + [taken]) ==
            Merged(ws[..i], added) + if taken then Carried(ws[i]) else []
  {
    assert ws[..i + 1][..i] == ws[..i] && (added + [taken])[..i] == added;
  }

  /** One entry of a message: checks, receive, and the note for the kernel. */
  method ReceiveWire(pool: IPPool, w: Wire, wall: Uint64, expiresAt: int, applied: seq<Mapping>)
    returns (applied': seq<Mapping>, added: bool)
    requires pool.Valid()
    modifies pool, pool.shards
    ensures pool.Valid()
    ensures Processed(pool.g, View(old(pool.leases), old(pool.hlc)), View(pool.leases, pool.hlc), w, wall, expiresAt, added)
    ensures applied' == applied + if added then Carried(w) else []
    ensures forall kernel :: Follows(Program(kernel, applied), old(pool.leases)) ==>
                             Follows(Program(kernel, applied'), pool.leases)
  {
    applied', added := applied, false;
    if w.fakeIP.None? || w.realIP.None? {
      return;
    }
    if !InSubnet(pool.g, w.fakeIP.value) {
      return;
    }
    var m := Decode(w);
    Sharded.RepresentsInjective(pool.View(), pool.leases, pool.h);
    MergeTakes(pool.leases, m.realIP, m.fakeIP, m.version, expiresAt);
    HeardHears(pool.leases, pool.hlc, wall, m);
    added := ReceiveOne(pool, m, wall, expiresAt);
    applied' := if added then applied + [m] else applied;
    forall kernel | Follows(Program(kernel, applied), old(pool.leases))
      ensures Follows(Program(kernel, applied'), pool.leases)
    {
      MergeFollows(Program(kernel, applied), old(pool.leases), m, expiresAt);
      ProgramOneMore(kernel, applied, m);
    }
  }

  // ------------------------------------------------------------------ cold start

  ghost predicate CarriesAll(ws: seq<Wire>, t: Table) {
    && (forall w :: w in ws ==>
          w.fakeIP.Some? && w.realIP.Some? && Holds(t, Mapping(w.fakeIP.value, w.realIP.value, w.version)))
    && (forall m :: Holds(t, m) ==> Wire(Some(m.fakeIP), Some(m.realIP), m.version) in ws)
  }

  lemma {:induction false} DeliveredIs(g: Geometry, ws: seq<Wire>, expiresAt: nat -> int, m: Mapping)
    requires g.size4 > 0 && g.size6 > 0 && forall w :: w in ws ==> Admissible(g, w)
    ensures m in Sent(Deliveries(g, ws, expiresAt)) <==> Wire(Some(m.fakeIP), Some(m.realIP), m.version) in ws
  {
    if ws != [] {
      var i := |ws| - 1;
      assert ws == ws[..i] + [ws[i]];
      assert Admissible(g, ws[i]);
      DeliveredIs(g, ws[..i], expiresAt, m);
      var ds, d := Deliveries(g, ws[..i], expiresAt), Delivery(Decode(ws[i]), expiresAt(i));
      assert Deliveries(g, ws, expiresAt) == ds + [d];
      assert Sent(ds + [d]) == Sent(ds) + {d.m};
    }
  }

  /** An empty pool that receives, in any order and with any repeats, exactly the mappings
      of another one ends with these mappings. */
  lemma ColdStartReceived(g: Geometry, t: Table, ws: seq<Wire>, expiresAt: nat -> int)
    requires g.size4 > 0 && g.size6 > 0 && Injective(t) && CarriesAll(ws, t)
    requires forall r :: r in t ==> InSubnet(g, t[r].fakeIP)
    ensures SameMappings(DeliverAll(map[], Deliveries(g, ws, expiresAt)), t)
  {
    forall m ensures m in Sent(Deliveries(g, ws, expiresAt)) <==> Holds(t, m) {
      DeliveredIs(g, ws, expiresAt, m);
    }
    ColdStartReplicates(t, Deliveries(g, ws, expiresAt));
  }

  /** A newly connected peer: it is sent all mappings and holds exactly these afterwards. */
  method ColdStart(sender: IPPool, receiver: IPPool, wall: nat -> Uint64, expiresAt: nat -> int)
    requires sender.Valid() && receiver.Valid() && receiver.leases == map[]
    requires sender != receiver && forall s :: s in sender.shards ==> s !in receiver.shards
    requires forall r :: r in sender.leases ==> InSubnet(receiver.g, sender.leases[r].fakeIP)
    modifies receiver, receiver.shards
    ensures receiver.Valid() && sender.leases == old(sender.leases)
    ensures SameMappings(receiver.leases, sender.leases)
    ensures GivenBy(receiver.leases, expiresAt)
  {
    var mappings := sender.GetAllMappings();
    var ws := Wires(mappings);
    WiresCarryAll(mappings, ws, sender.leases);
    Sharded.RepresentsInjective(sender.View(), sender.leases, sender.h);
    ColdStartReceived(receiver.g, sender.leases, ws, expiresAt);
    var applied, views, added := ReceiveMappings(receiver, ws, wall, expiresAt);
    ExpiriesGiven(receiver.g, ws, wall, expiresAt, views, added);
  }

  lemma ExpiriesGiven(g: Geometry, ws: seq<Wire>, wall: nat -> Uint64, expiresAt: nat -> int, views: seq<View>, added: seq<bool>)
    requires g.size4 > 0 && g.size6 > 0 && Trace(g, ws, wall, expiresAt, views, added) && views[0].table == map[]
    ensures GivenBy(views[|ws|].table, expiresAt)
  {
    forall r | r in views[|ws|].table ensures exists i: nat :: views[|ws|].table[r].expiry == expiresAt(i) {
      LeaseOrigin(g, ws, wall, expiresAt, views, added, r);
    }
  }

  /** Every lease has an expiry read off for some entry of the message. */
  ghost predicate GivenBy(t: Table, expiresAt: nat -> int) {
    forall r :: r in t ==> exists i: nat :: t[r].expiry == expiresAt(i)
  }

  /** The mappings as they are sent. */
  method Wires(mappings: seq<Mapping>) returns (ws: seq<Wire>)
    ensures |ws| == |mappings|
    ensures forall i :: 0 <= i < |ws| ==> ws[i] == Wire(Some(mappings[i].fakeIP), Some(mappings[i].realIP), mappings[i].version)
  {
    ws := [];
    for i := 0 to |mappings|
      invariant |ws| == i
      invariant forall j :: 0 <= j < i ==> ws[j] == Wire(Some(mappings[j].fakeIP), Some(mappings[j].realIP), mappings[j].version)
    {
      ws := ws + [Wire(Some(mappings[i].fakeIP), Some(mappings[i].realIP), mappings[i].version)];
    }
  }

  lemma WiresCarryAll(mappings: seq<Mapping>, ws: seq<Wire>, t: Table)
    requires forall m :: m in mappings <==> Holds(t, m)
    requires |ws| == |mappings|
    requires forall i :: 0 <= i < |ws| ==> ws[i] == Wire(Some(mappings[i].fakeIP), Some(mappings[i].realIP), mappings[i].version)
    ensures CarriesAll(ws, t)
  {
    forall w | w in ws
      ensures w.fakeIP.Some? && w.realIP.Some? && Holds(t, Mapping(w.fakeIP.value, w.realIP.value, w.version))
    {
      var i :| 0 <= i < |ws| && ws[i] == w;
      assert mappings[i] in mappings;
    }
    forall m | Holds(t, m) ensures Wire(Some(m.fakeIP), Some(m.realIP), m.version) in ws {
      var i :| 0 <= i < |mappings| && mappings[i] == m;
      assert ws[i] in ws;
    }
  }
}
