/** The locking order of the pool.  A thread takes the global lock before any shard
    lock, a second shard lock only while it holds the global one, and the clock lock
    last; readers of a shard hold nothing else.  Two shards may be locked in either
    order, so this is not a plain lock hierarchy; `NoDeadlock` shows that some thread
    can always go on. */
module Locks {

  datatype Lock = Global | ShardLock(i: nat) | ClockLock

  datatype Op = Acquire(l: Lock) | Drop(l: Lock) | Read(i: nat) | Unread(i: nat)

  /** What the pool's operations lock, branch by branch. */
  datatype Operation =
    | Look                    // GetVersion, GetAllMappings, GetActiveCount, a stale fake in AddMapping
    | Tick                    // GetNextVersion, ObserveVersion
    | Write(i: nat)           // AddMapping in one shard, RemoveMapping, TryReserve
    | Move(i: nat, j: nat)    // AddMapping that clears a real of another shard
    | Peek(i: nat)            // fast path of an allocation, a prune with nothing expired
    | Prune(i: nat)
    | Allocate(i: nat)

  /** A move between a shard and itself takes the one-shard branch. */
  function Script(o: Operation): seq<Op> {
    match o
    case Look => [Acquire(Global), Drop(Global)]
    case Tick => [Acquire(ClockLock), Drop(ClockLock)]
    case Write(i) => [Acquire(Global), Acquire(ShardLock(i)), Drop(ShardLock(i)), Drop(Global)]
    case Move(i, j) =>
      if i == j then [Acquire(Global), Acquire(ShardLock(i)), Drop(ShardLock(i)), Drop(Global)]
      else [Acquire(Global), Acquire(ShardLock(i)), Acquire(ShardLock(j)),
            Drop(ShardLock(j)), Drop(ShardLock(i)), Drop(Global)]
    case Peek(i) => [Read(i), Unread(i)]
    case Prune(i) =>
      [Read(i), Unread(i), Acquire(Global), Acquire(ShardLock(i)), Drop(ShardLock(i)), Drop(Global)]
    case Allocate(i) =>
      [Read(i), Unread(i), Acquire(Global), Acquire(ShardLock(i)),
       Acquire(ClockLock), Drop(ClockLock), Drop(ShardLock(i)), Drop(Global)]
  }

  /** What is left to do, and what is held: exclusively in `ex`, for reading in `sh`. */
  datatype Thread = Thread(rest: seq<Op>, ex: set<Lock>, sh: set<nat>)

  // ------------------------------------------------------------- the discipline

  /** The operation may be next, given what is held and what follows it. */
  predicate Orderly(o: Op, rest: seq<Op>, ex: set<Lock>, sh: set<nat>) {
    match o
    case Acquire(Global) => ex == {} && sh == {}
    case Acquire(ShardLock(i)) => Global in ex && ShardLock(i) !in ex && ClockLock !in ex && sh == {}
    case Acquire(ClockLock) => ClockLock !in ex && sh == {} && rest != [] && rest[0] == Drop(ClockLock)
    case Drop(l) => l in ex && (l == Global ==> ex == {Global})
    case Read(i) => ex == {} && sh == {} && rest != [] && rest[0] == Unread(i)
    case Unread(i) => i in sh
  }

  function ExAfter(o: Op, ex: set<Lock>): set<Lock> {
    match o
    case Acquire(l) => ex + {l}
    case Drop(l) => ex - {l}
    case _ => ex
  }

  function ShAfter(o: Op, sh: set<nat>): set<nat> {
    match o
    case Read(i) => sh + {i}
    case Unread(i) => sh - {i}
    case _ => sh
  }

  predicate Follows(rest: seq<Op>, ex: set<Lock>, sh: set<nat>)
    decreases |rest|
  {
    if rest == [] then ex == {} && sh == {}
    else Orderly(rest[0], rest[1..], ex, sh) && Follows(rest[1..], ExAfter(rest[0], ex), ShAfter(rest[0], sh))
  }

  /** What holds of a thread between any two of its operations. */
  ghost predicate Disciplined(t: Thread) {
    && Follows(t.rest, t.ex, t.sh)
    && (forall i :: ShardLock(i) in t.ex ==> Global in t.ex)
    && (ClockLock in t.ex ==> t.rest != [] && t.rest[0] == Drop(ClockLock))
    && (forall i :: i in t.sh ==> t.rest != [] && t.rest[0] == Unread(i))
  }

  function Advance(t: Thread): Thread
    requires t.rest != []
  {
    Thread(t.rest[1..], ExAfter(t.rest[0], t.ex), ShAfter(t.rest[0], t.sh))
  }

  lemma AdvanceDisciplined(t: Thread)
    requires Disciplined(t) && t.rest != []
    ensures Disciplined(Advance(t))
  {
  }

  /** A script follows from its `k`th operation on if it does from the next. */
  lemma Back(f: seq<Op>, k: nat, ex: set<Lock>, sh: set<nat>)
    requires k < |f| && Orderly(f[k], f[k + 1..], ex, sh)
    requires Follows(f[k + 1..], ExAfter(f[k], ex), ShAfter(f[k], sh))
    ensures Follows(f[k..], ex, sh)
  {
  }

  lemma OneShard(i: nat)
    ensures Follows([Acquire(Global), Acquire(ShardLock(i)), Drop(ShardLock(i)), Drop(Global)], {}, {})
  {
    var s := ShardLock(i);
    var f := [Acquire(Global), Acquire(s), Drop(s), Drop(Global)];
    assert {Global} - {Global} == {} && {Global, s} - {s} == {Global};
    Back(f, 3, {Global}, {});
    Back(f, 2, {Global, s}, {});
    assert {Global} + {s} == {Global, s};
    Back(f, 1, {Global}, {});
    assert {} + {Global} == {Global};
    Back(f, 0, {}, {});
    assert f[0..] == f;
  }

  lemma TwoShards(i: nat, j: nat)
    requires i != j
    ensures Follows([Acquire(Global), Acquire(ShardLock(i)), Acquire(ShardLock(j)),
                     Drop(ShardLock(j)), Drop(ShardLock(i)), Drop(Global)], {}, {})
  {
    var s, u := ShardLock(i), ShardLock(j);
    var f := [Acquire(Global), Acquire(s), Acquire(u), Drop(u), Drop(s), Drop(Global)];
    assert {Global} - {Global} == {} && {Global, s} - {s} == {Global} && {Global, s, u} - {u} == {Global, s};
    Back(f, 5, {Global}, {});
    Back(f, 4, {Global, s}, {});
    Back(f, 3, {Global, s, u}, {});
    assert {Global, s} + {u} == {Global, s, u};
    Back(f, 2, {Global, s}, {});
    assert {Global} + {s} == {Global, s};
    Back(f, 1, {Global}, {});
    assert {} + {Global} == {Global};
    Back(f, 0, {}, {});
    assert f[0..] == f;
  }

  lemma WithClock(i: nat)
    ensures Follows([Acquire(Global), Acquire(ShardLock(i)), Acquire(ClockLock), Drop(ClockLock),
                     Drop(ShardLock(i)), Drop(Global)], {}, {})
  {
    var s := ShardLock(i);
    var f := [Acquire(Global), Acquire(s), Acquire(ClockLock), Drop(ClockLock), Drop(s), Drop(Global)];
    assert {Global} - {Global} == {} && {Global, s} - {s} == {Global};
    assert {Global, s, ClockLock} - {ClockLock} == {Global, s};
    Back(f, 5, {Global}, {});
    Back(f, 4, {Global, s}, {});
    Back(f, 3, {Global, s, ClockLock}, {});
    assert {Global, s} + {ClockLock} == {Global, s, ClockLock};
    Back(f, 2, {Global, s}, {});
    assert {Global} + {s} == {Global, s};
    Back(f, 1, {Global}, {});
    assert {} + {Global} == {Global};
    Back(f, 0, {}, {});
    assert f[0..] == f;
  }

  lemma AfterRead(i: nat, rest: seq<Op>)
    requires Follows(rest, {}, {})
    ensures Follows([Read(i), Unread(i)] + rest, {}, {})
  {
  }

  lemma AloneFollows(l: Lock)
    requires !l.ShardLock?
    ensures Follows([Acquire(l), Drop(l)], {}, {})
  {
  }

  /** Every operation of the pool keeps the discipline. */
  lemma ScriptFollows(o: Operation)
    ensures Follows(Script(o), {}, {})
  {
    match o
    case Look => AloneFollows(Global);
    case Tick => AloneFollows(ClockLock);
    case Write(i) => OneShard(i);
    case Move(i, j) => if i == j { OneShard(i); } else { TwoShards(i, j); }
    case Peek(i) => AfterRead(i, []); assert [Read(i), Unread(i)] + [] == Script(o);
    case Prune(i) =>
      OneShard(i);
      AfterRead(i, Script(Write(i)));
      assert [Read(i), Unread(i)] + Script(Write(i)) == Script(o);
    case Allocate(i) =>
      WithClock(i);
      AfterRead(i, Script(o)[2..]);
      assert Script(o)[2..] == [Acquire(Global), Acquire(ShardLock(i)), Acquire(ClockLock), Drop(ClockLock),
                                Drop(ShardLock(i)), Drop(Global)];
      assert [Read(i), Unread(i)] + Script(o)[2..] == Script(o);
  }

  // ------------------------------------------------------------------- the system

  /** Nobody else stands in the way.  A waiting writer also keeps new readers out. */
  ghost predicate Free(ts: seq<Thread>, k: nat)
    requires k < |ts| && ts[k].rest != []
  {
    match ts[k].rest[0]
    case Acquire(l) => forall j :: 0 <= j < |ts| && j != k ==> !Blocks(ts[j], l)
    case Read(i) => forall j :: 0 <= j < |ts| && j != k ==> ShardLock(i) !in ts[j].ex && !WaitsFor(ts[j], ShardLock(i))
    case _ => true
  }

  predicate Blocks(t: Thread, l: Lock) {
    l in t.ex || (l.ShardLock? && l.i in t.sh)
  }

  predicate WaitsFor(t: Thread, l: Lock) {
    t.rest != [] && t.rest[0] == Acquire(l)
  }

  datatype Step = Begin(k: nat, o: Operation) | Go(k: nat)

  /** A thread between operations begins another; a free one takes its next step. */
  ghost function Next(ts: seq<Thread>, step: Step): (r: seq<Thread>)
    ensures |r| == |ts|
  {
    match step
    case Begin(k, o) => if k < |ts| && ts[k].rest == [] then ts[k := ts[k].(rest := Script(o))] else ts
    case Go(k) => if k < |ts| && ts[k].rest != [] && Free(ts, k) then ts[k := Advance(ts[k])] else ts
  }

  ghost function Run(ts: seq<Thread>, steps: seq<Step>): (r: seq<Thread>)
    ensures |r| == |ts|
  {
    if steps == [] then ts else Next(Run(ts, steps[..|steps| - 1]), steps[|steps| - 1])
  }

  function Idle(n: nat): seq<Thread> {
    seq(n, i => Thread([], {}, {}))
  }

  /** Two threads do not hold what excludes each other. */
  ghost predicate Apart(t: Thread, u: Thread) {
    forall l :: l in t.ex ==> !Blocks(u, l)
  }

  ghost predicate Inv(ts: seq<Thread>) {
    && (forall k :: 0 <= k < |ts| ==> Disciplined(ts[k]))
    && (forall j, k :: 0 <= j < |ts| && 0 <= k < |ts| && j != k ==> Apart(ts[j], ts[k]))
  }

  lemma NextInv(ts: seq<Thread>, step: Step)
    requires Inv(ts)
    ensures Inv(Next(ts, step))
  {
    match step
    case Begin(k, o) =>
      if k < |ts| && ts[k].rest == [] { ScriptFollows(o); }
    case Go(k) =>
      if k < |ts| && ts[k].rest != [] && Free(ts, k) {
        AdvanceDisciplined(ts[k]);
        GoApart(ts, k);
      }
  }

  lemma GoApart(ts: seq<Thread>, k: nat)
    requires Inv(ts) && k < |ts| && ts[k].rest != [] && Free(ts, k)
    ensures forall j :: 0 <= j < |ts| && j != k ==> Apart(ts[j], Advance(ts[k])) && Apart(Advance(ts[k]), ts[j])
  {
  }

  lemma {:induction false} RunInv(n: nat, steps: seq<Step>)
    ensures Inv(Run(Idle(n), steps))
  {
    if steps != [] {
      RunInv(n, steps[..|steps| - 1]);
      NextInv(Run(Idle(n), steps[..|steps| - 1]), steps[|steps| - 1]);
    }
  }

  /** The thread is in the middle of an operation and can take its next step. */
  ghost predicate CanGo(ts: seq<Thread>, k: nat) {
    k < |ts| && ts[k].rest != [] && Free(ts, k)
  }

  /** If the global lock is held, its holder or a reader in its way can go on. */
  lemma HolderGoes(ts: seq<Thread>, k: nat) returns (m: nat)
    requires Inv(ts) && k < |ts| && Global in ts[k].ex
    requires forall j :: 0 <= j < |ts| ==> ClockLock !in ts[j].ex
    ensures CanGo(ts, m)
  {
    m := k;
    assert Disciplined(ts[k]);
    if !CanGo(ts, k) {
      var l := ts[k].rest[0].l;
      var j :| 0 <= j < |ts| && j != k && Blocks(ts[j], l);
      assert Apart(ts[j], ts[k]) && Disciplined(ts[j]);
      m := j;
    }
  }

  /** With the global and the clock lock free, every unfinished thread can go on. */
  lemma AnyoneGoes(ts: seq<Thread>, k: nat)
    requires Inv(ts) && k < |ts| && ts[k].rest != []
    requires forall j :: 0 <= j < |ts| ==> Global !in ts[j].ex && ClockLock !in ts[j].ex
    ensures CanGo(ts, k)
  {
  }

  /** No deadlock: in every reachable state with an unfinished operation some thread
      can take its next step. */
  lemma NoDeadlock(n: nat, steps: seq<Step>, k: nat) returns (m: nat)
    requires k < n && Run(Idle(n), steps)[k].rest != []
    ensures CanGo(Run(Idle(n), steps), m)
  {
    var ts := Run(Idle(n), steps);
    RunInv(n, steps);
    if j :| 0 <= j < |ts| && ClockLock in ts[j].ex {
      assert Disciplined(ts[j]);
      m := j;
    } else if j :| 0 <= j < |ts| && Global in ts[j].ex {
      m := HolderGoes(ts, j);
    } else {
      AnyoneGoes(ts, k);
      m := k;
    }
  }
}
