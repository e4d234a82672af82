/** Two nodes that dial each other: the handshake, of which only the accepting side
    compares the pool nets, and the tie-break between crossing connections.  Both are
    modelled as steps of the two handlers of each connection, in any interleaving. */
module Peering {
  import opened Address
  import Sets

  datatype Side = Left | Right

  function Other(s: Side): Side {
    if s == Left then Right else Left
  }

  /** What a node is started with.  `address` ranks its canonical address. */
  datatype Config = Config(uuid: Uint64, net4: string, net6: string, token: string, address: nat)

  /** The two nodes and who dialled each connection. */
  datatype Link = Link(left: Config, right: Config, dial: map<nat, Side>)

  function At(k: Link, s: Side): Config {
    if s == Left then k.left else k.right
  }

  // --------------------------------------------------------------- the tie-break

  /** `shouldKeepNewConnection`. */
  predicate KeepNew(nodeUUID: Uint64, local: nat, remote: nat,
                    oldPeer: Uint64, oldOutgoing: bool, newPeer: Uint64, newOutgoing: bool)
  {
    if newPeer != oldPeer then true
    else if newOutgoing == oldOutgoing then true
    else if newOutgoing then nodeUUID < newPeer || (nodeUUID == newPeer && local < remote)
    else nodeUUID > newPeer || (nodeUUID == newPeer && local > remote)
  }

  /** The decision at side `s` between two connections to the same peer. */
  predicate Keeps(k: Link, s: Side, oldConn: nat, newConn: nat)
    requires oldConn in k.dial && newConn in k.dial
  {
    var peer := At(k, Other(s)).uuid;
    KeepNew(At(k, s).uuid, At(k, s).address, At(k, Other(s)).address,
            peer, k.dial[oldConn] == s, peer, k.dial[newConn] == s)
  }

  // ------------------------------------------------------------------- the steps

  /** `replied`: the accepting side has checked the hello and answered; `reading`: the
      handler has registered the connection and reads from it; `ended`: it has
      returned; `closed`: closed at that side; `broken`: lost by the network. */
  datatype State = State(replied: set<nat>, reading: set<(Side, nat)>, ended: set<(Side, nat)>,
                         closed: set<(Side, nat)>, broken: set<nat>, conns: map<Side, nat>)

  const START := State({}, {}, {}, {}, {}, map[])

  datatype Step = Accept(c: nat) | Register(s: Side, c: nat) | Cleanup(s: Side, c: nat) | Break(c: nat)

  predicate TokenOk(own: string, supplied: string) {
    own == "" || own == supplied
  }

  /** What the accepting side requires of a hello. */
  predicate HelloOk(k: Link, s: Side) {
    var own, peer := At(k, s), At(k, Other(s));
    TokenOk(own.token, peer.token) && peer.uuid != own.uuid && peer.net4 == own.net4 && peer.net6 == own.net6
  }

  /** What the dialling side requires of the reply. */
  predicate ReplyOk(k: Link, s: Side) {
    var own, peer := At(k, s), At(k, Other(s));
    TokenOk(own.token, peer.token) && peer.uuid != own.uuid
  }

  predicate Idle(n: State, s: Side, c: nat) {
    (s, c) !in n.reading && (s, c) !in n.ended
  }

  /** The handler of `c` at `s` returns and closes its end. */
  function Return(n: State, s: Side, c: nat): State {
    n.(ended := n.ended + {(s, c)}, closed := n.closed + {(s, c)}, reading := n.reading - {(s, c)})
  }

  /** Under the lock: takes the slot of the peer, unless the connection there wins. */
  function Enter(k: Link, n: State, s: Side, c: nat): State
    requires c in k.dial
  {
    if s in n.conns && n.conns[s] != c && n.conns[s] in k.dial then
      if Keeps(k, s, n.conns[s], c)
      then n.(closed := n.closed + {(s, n.conns[s])}, conns := n.conns[s := c], reading := n.reading + {(s, c)})
      else Return(n, s, c)
    else n.(conns := n.conns[s := c], reading := n.reading + {(s, c)})
  }

  /** A step that is not possible changes nothing. */
  function Next(k: Link, n: State, step: Step): State {
    match step
    case Accept(c) =>
      if c !in k.dial || c in n.replied || !Idle(n, Other(k.dial[c]), c) then n
      else if HelloOk(k, Other(k.dial[c])) then n.(replied := n.replied + {c})
      else Return(n, Other(k.dial[c]), c)
    case Register(s, c) =>
      if c !in k.dial || c !in n.replied || !Idle(n, s, c) then n
      else if k.dial[c] == s && !ReplyOk(k, s) then Return(n, s, c)
      else Enter(k, n, s, c)
    case Cleanup(s, c) =>
      if (s, c) in n.reading && (c in n.broken || (Left, c) in n.closed || (Right, c) in n.closed)
      then Return(if s in n.conns && n.conns[s] == c then n.(conns := n.conns - {s}) else n, s, c)
      else n
    case Break(c) => n.(broken := n.broken + {c})
  }

  function Run(k: Link, n: State, steps: seq<Step>): State {
    if steps == [] then n else Next(k, Run(k, n, steps[..|steps| - 1]), steps[|steps| - 1])
  }

  // --------------------------------------------------------------- the handshake

  /** The nodes may replicate: same pool nets, different identities. */
  predicate Compatible(k: Link) {
    k.left.net4 == k.right.net4 && k.left.net6 == k.right.net6 && k.left.uuid != k.right.uuid
  }

  ghost predicate HandshakeInv(k: Link, n: State) {
    && (forall c :: c in n.replied ==> Compatible(k))
    && (forall s, c :: (s, c) in n.reading ==> c in n.replied && c in k.dial)
    && (forall s :: s in n.conns ==> (s, n.conns[s]) in n.reading)
  }

  lemma NextHandshake(k: Link, n: State, step: Step)
    requires HandshakeInv(k, n)
    ensures HandshakeInv(k, Next(k, n, step))
  {
  }

  /** In every run, a connection registered at either end means equal IPv4 and IPv6
      pool nets and different UUIDs, although only the accepting side compares nets. */
  lemma {:induction false} RegisteredMeansCompatible(k: Link, steps: seq<Step>)
    ensures HandshakeInv(k, Run(k, START, steps))
    ensures Run(k, START, steps).reading != {} ==> Compatible(k)
  {
    if steps != [] {
      RegisteredMeansCompatible(k, steps[..|steps| - 1]);
      NextHandshake(k, Run(k, START, steps[..|steps| - 1]), steps[|steps| - 1]);
    }
    var n := Run(k, START, steps);
    if n.reading != {} {
      var e :| e in n.reading;
      assert (e.0, e.1) in n.reading;
    }
  }

  /** The checks a handshake has passed: the accepting side's before the reply, the
      dialling side's before it registers. */
  ghost predicate Checked(k: Link, n: State) {
    && (forall c :: c in n.replied ==> c in k.dial && HelloOk(k, Other(k.dial[c])))
    && (forall s, c :: (s, c) in n.reading ==> c in n.replied && c in k.dial && (k.dial[c] == s ==> ReplyOk(k, s)))
  }

  lemma {:induction false} RunChecked(k: Link, steps: seq<Step>)
    ensures Checked(k, Run(k, START, steps))
  {
    if steps != [] { RunChecked(k, steps[..|steps| - 1]); }
  }

  /** The node with this configuration takes a peer that supplies this token. */
  predicate Trusts(own: Config, peer: Config) {
    own.token == "" || own.token == peer.token
  }

  ghost predicate CanRegister(k: Link, s: Side, c: nat) {
    exists steps :: (s, c) in Run(k, START, steps).reading
  }

  /** When an end can register a connection: the nets agree, the UUIDs differ, the
      accepting side has no token or is shown its own, and at the dialling end the
      dialling side likewise. */
  lemma CanRegisterIff(k: Link, s: Side, c: nat)
    requires c in k.dial
    ensures var dialler, acceptor := At(k, k.dial[c]), At(k, Other(k.dial[c]));
            CanRegister(k, s, c) <==>
            && dialler.net4 == acceptor.net4 && dialler.net6 == acceptor.net6 && dialler.uuid != acceptor.uuid
            && Trusts(acceptor, dialler) && (s == k.dial[c] ==> Trusts(dialler, acceptor))
  {
    if CanRegister(k, s, c) {
      var steps :| (s, c) in Run(k, START, steps).reading;
      RunChecked(k, steps);
    }
    var dialler, acceptor := At(k, k.dial[c]), At(k, Other(k.dial[c]));
    if dialler.net4 == acceptor.net4 && dialler.net6 == acceptor.net6 && dialler.uuid != acceptor.uuid
       && Trusts(acceptor, dialler) && (s == k.dial[c] ==> Trusts(dialler, acceptor)) {
      RunTwo(k, START, Accept(c), Register(s, c));
      assert (s, c) in Run(k, START, [Accept(c), Register(s, c)]).reading;
    }
  }

  /** So a tie-break never compares addresses: when one takes place the UUIDs differ. */
  lemma TieBreakHasDistinctIds(k: Link, steps: seq<Step>, s: Side, c: nat)
    requires c in k.dial && c in Run(k, START, steps).replied
    ensures At(k, s).uuid != At(k, Other(s)).uuid
  {
    RegisteredMeansCompatible(k, steps);
  }

  // ------------------------------------------------------- crossing connections

  /** Both handshakes succeed. */
  predicate Friendly(k: Link) {
    Compatible(k) && HelloOk(k, Left) && HelloOk(k, Right)
  }

  function Lower(k: Link): Side {
    if k.left.uuid < k.right.uuid then Left else Right
  }

  /** `c` is the only connection dialled by the node with the lower UUID. */
  ghost predicate Lone(k: Link, c: nat) {
    c in k.dial && k.dial[c] == Lower(k) && forall d :: d in k.dial && d != c ==> k.dial[d] != Lower(k)
  }

  /** `c` is the only connection of the lower UUID, or the only one there is. */
  ghost predicate Dominant(k: Link, c: nat) {
    c in k.dial && (Lone(k, c) || forall d :: d in k.dial ==> d == c)
  }

  /** As long as the network keeps it, it is open at both ends and, once registered,
      in the table. */
  ghost predicate Preferred(n: State, c: nat) {
    c !in n.broken ==>
      forall s :: (s, c) !in n.closed && ((s, c) in n.reading ==> s in n.conns && n.conns[s] == c)
  }

  /** It wins at both ends, whichever connection comes first. */
  lemma DominantWins(k: Link, s: Side, c: nat, d: nat)
    requires Compatible(k) && Dominant(k, c) && d in k.dial && d != c
    ensures Keeps(k, s, d, c) && !Keeps(k, s, c, d)
  {
  }

  lemma NextPreferred(k: Link, n: State, step: Step, c: nat)
    requires Friendly(k)
    requires HandshakeInv(k, n) && Dominant(k, c) && Preferred(n, c)
    ensures Preferred(Next(k, n, step), c)
  {
    match step
    case Register(s, d) =>
      if d in k.dial && d != c { DominantWins(k, s, c, d); }
      if s in n.conns && n.conns[s] in k.dial && n.conns[s] != c { DominantWins(k, s, c, n.conns[s]); }
    case _ =>
  }

  /** In every interleaving of registration, tie-break and cleanup, and with any number
      of connections dialled by the other node, the one connection dialled by the
      lower UUID is closed at neither end while the network keeps it, and every end
      that has registered it has it in its table; the same holds of a connection that
      is the only one. */
  lemma {:induction false} DominantSurvives(k: Link, steps: seq<Step>, c: nat)
    requires Friendly(k) && Dominant(k, c)
    ensures Preferred(Run(k, START, steps), c)
  {
    if steps != [] {
      DominantSurvives(k, steps[..|steps| - 1], c);
      RegisteredMeansCompatible(k, steps[..|steps| - 1]);
      NextPreferred(k, Run(k, START, steps[..|steps| - 1]), steps[|steps| - 1], c);
    }
  }

  lemma {:induction false} RunAppend(k: Link, n: State, a: seq<Step>, b: seq<Step>)
    ensures Run(k, n, a + b) == Run(k, Run(k, n, a), b)
  {
    if b == [] {
      assert a + b == a;
    } else {
      assert (a + b)[..|a + b| - 1] == a + b[..|b| - 1];
      RunAppend(k, n, a, b[..|b| - 1]);
    }
  }

  lemma ReadingStays(k: Link, n: State, step: Step, s: Side, c: nat)
    requires (s, c) in n.reading && c !in Next(k, n, step).broken
    requires (Left, c) !in n.closed && (Right, c) !in n.closed
    ensures (s, c) in Next(k, n, step).reading && c !in n.broken
  {
  }

  /** Both handlers read from `c`, and both tables have it. */
  ghost predicate Joined(n: State, c: nat) {
    forall s :: (s, c) in n.reading && s in n.conns && n.conns[s] == c
  }

  lemma EnterJoined(n: State, c: nat)
    requires Preferred(n, c) && c !in n.broken && (Left, c) in n.reading && (Right, c) in n.reading
    ensures Joined(n, c)
  {
    forall s ensures (s, c) in n.reading && s in n.conns && n.conns[s] == c {
      assert s == Left || s == Right;
    }
  }

  lemma BrokenGrows(k: Link, n: State, step: Step)
    ensures n.broken <= Next(k, n, step).broken
  {
  }

  lemma NextJoined(k: Link, n: State, step: Step, c: nat)
    requires Friendly(k) && HandshakeInv(k, n) && Dominant(k, c) && Preferred(n, c) && Joined(n, c)
    requires c !in Next(k, n, step).broken
    ensures c !in n.broken && Joined(Next(k, n, step), c)
  {
    assert c !in n.broken;
    NextPreferred(k, n, step, c);
    ReadingStays(k, n, step, Left, c);
    ReadingStays(k, n, step, Right, c);
  }

  /** Once both ends have registered it, both tables keep it for the rest of any run
      in which the network keeps it. */
  lemma {:induction false} DominantIsKept(k: Link, steps: seq<Step>, more: seq<Step>, c: nat)
    requires Friendly(k) && Dominant(k, c)
    requires (Left, c) in Run(k, START, steps).reading && (Right, c) in Run(k, START, steps).reading
    requires c !in Run(k, START, steps + more).broken
    ensures Joined(Run(k, START, steps + more), c)
  {
    if more == [] {
      assert steps + more == steps;
      DominantSurvives(k, steps, c);
      EnterJoined(Run(k, START, steps), c);
    } else {
      var init, last := more[..|more| - 1], more[|more| - 1];
      assert (steps + more)[..|steps + more| - 1] == steps + init;
      DominantSurvives(k, steps + init, c);
      RegisteredMeansCompatible(k, steps + init);
      BrokenGrows(k, Run(k, START, steps + init), last);
      DominantIsKept(k, steps, init, c);
      NextJoined(k, Run(k, START, steps + init), last, c);
    }
  }

  // -------------------------------------------------------- lost connections

  lemma RunThen(k: Link, n: State, steps: seq<Step>, step: Step)
    ensures Run(k, n, steps + [step]) == Next(k, Run(k, n, steps), step)
  {
    assert (steps + [step])[..|steps|] == steps;
  }

  lemma RunTwo(k: Link, n: State, a: Step, b: Step)
    ensures Run(k, n, [a, b]) == Next(k, Next(k, n, a), b)
  {
    RunThen(k, n, [], a);
    RunThen(k, n, [a], b);
    assert [] + [a] == [a] && [a] + [b] == [a, b];
  }

  /** Closed at some end although the network kept it. */
  ghost predicate LostIn(n: State, c: nat) {
    c !in n.broken && exists s :: (s, c) in n.closed
  }

  /** Registering `c` and then a connection that beats it closes `c`. */
  lemma BeatenIsLost(k: Link, s: Side, c: nat, d: nat) returns (steps: seq<Step>)
    requires Friendly(k) && c != d && c in k.dial && d in k.dial && Keeps(k, s, c, d)
    ensures LostIn(Run(k, START, steps), c)
  {
    steps := [Accept(c), Accept(d)] + [Register(s, c), Register(s, d)];
    RunAppend(k, START, [Accept(c), Accept(d)], [Register(s, c), Register(s, d)]);
    RunTwo(k, START, Accept(c), Accept(d));
    var n := Run(k, START, [Accept(c), Accept(d)]);
    assert n == State({c, d}, {}, {}, {}, {}, map[]);
    RunTwo(k, n, Register(s, c), Register(s, d));
    assert (s, c) in Run(k, START, steps).closed;
  }

  ghost predicate Safe(k: Link, c: nat) {
    forall steps :: !LostIn(Run(k, START, steps), c)
  }

  /** A connection is safe in every run exactly when it is the only one of the lower
      UUID, or the only one. */
  lemma ConnectionSafeIff(k: Link, c: nat)
    requires Friendly(k) && c in k.dial
    ensures Safe(k, c) <==> Dominant(k, c)
  {
    if Dominant(k, c) {
      forall steps ensures !LostIn(Run(k, START, steps), c) {
        DominantSurvives(k, steps, c);
      }
    } else {
      var d :| d in k.dial && d != c && (k.dial[c] == Lower(k) ==> k.dial[d] == Lower(k));
      assert Keeps(k, Lower(k), c, d);
      var steps := BeatenIsLost(k, Lower(k), c, d);
      assert LostIn(Run(k, START, steps), c);
    }
  }

  /** All connections of the lower node are safe exactly when it has dialled at most
      one. */
  lemma TieBreakSafeIff(k: Link)
    requires Friendly(k)
    ensures (forall c :: c in k.dial && k.dial[c] == Lower(k) ==> Safe(k, c)) <==>
            (forall c, d :: c in k.dial && d in k.dial && k.dial[c] == k.dial[d] == Lower(k) ==> c == d)
  {
    forall c | c in k.dial && k.dial[c] == Lower(k) ensures Safe(k, c) <==> Lone(k, c) {
      ConnectionSafeIff(k, c);
    }
  }

  // ------------------------------------------------- losing every connection

  ghost predicate Over(n: State, c: nat) {
    exists s :: (s, c) in n.ended
  }

  /** Both tables are empty and every connection is over at some end, though the
      network lost none. */
  ghost predicate AllLost(k: Link, n: State) {
    && n.conns == map[] && n.broken == {}
    && forall c :: c in k.dial ==> Over(n, c)
  }

  ghost predicate CanLoseAll(k: Link) {
    exists steps :: AllLost(k, Run(k, START, steps))
  }

  /** The connections in `D` have been registered at `s` only; one is left there. */
  ghost predicate Swept(s: Side, n: State, D: set<nat>) {
    && n.replied == D && n.broken == {} && n.closed == n.ended
    && (forall t, c :: (t, c) in n.ended ==> t == s && c in D)
    && (forall t, c :: (t, c) in n.reading ==> t == s && s in n.conns && n.conns[s] == c)
    && (forall t :: t in n.conns ==> t == s && n.conns[s] in D && (s, n.conns[s]) in n.reading && (s, n.conns[s]) !in n.ended)
    && (forall c :: c in D ==> (s, c) in n.ended || (s in n.conns && n.conns[s] == c))
  }

  /** One more connection: registered, and the loser of the tie-break cleaned up. */
  lemma SweepOne(k: Link, s: Side, n: State, D: set<nat>, c: nat) returns (steps: seq<Step>)
    requires Friendly(k) && Swept(s, n, D) && D <= k.dial.Keys && c in k.dial && c !in D
    ensures Swept(s, Run(k, n, steps), D + {c})
    ensures (s in n.conns ==> Keeps(k, s, n.conns[s], c)) ==>
              s in Run(k, n, steps).conns && Run(k, n, steps).conns[s] == c
  {
    RunTwo(k, n, Accept(c), Register(s, c));
    steps := [Accept(c), Register(s, c)];
    if s in n.conns {
      RunThen(k, n, steps, Cleanup(s, n.conns[s]));
      steps := steps + [Cleanup(s, n.conns[s])];
    }
  }

  lemma {:induction false} Sweep(k: Link, s: Side, D: set<nat>) returns (steps: seq<Step>)
    requires Friendly(k) && D <= k.dial.Keys
    ensures Swept(s, Run(k, START, steps), D)
  {
    if D == {} {
      steps := [];
    } else {
      var c :| c in D;
      steps := Sweep(k, s, D - {c});
      var more := SweepOne(k, s, Run(k, START, steps), D - {c}, c);
      RunAppend(k, START, steps, more);
      steps := steps + more;
      assert D - {c} + {c} == D;
    }
  }

  /** The last two, `c1` and `c2`, dialled by the same node, are registered in opposite
      orders at the two ends.  First at `s`, where `c1` is in the table already. */
  lemma CrossHere(k: Link, s: Side, n: State, D: set<nat>, c1: nat, c2: nat)
    requires Friendly(k) && Swept(s, n, D) && D <= k.dial.Keys && s in n.conns && n.conns[s] == c1
    requires c1 in D && c2 in k.dial && c2 !in D && k.dial[c1] == k.dial[c2]
    ensures Run(k, n, [Accept(c2), Register(s, c2)]) ==
            State(D + {c2}, n.reading + {(s, c2)}, n.ended, n.closed + {(s, c1)}, {}, map[s := c2])
  {
    RunTwo(k, n, Accept(c2), Register(s, c2));
    assert n.conns == map[s := c1] && Keeps(k, s, c1, c2);
    var m := Next(k, n, Accept(c2));
    assert m == n.(replied := D + {c2});
  }

  /** Then at the other end, where `c1` comes last. */
  lemma CrossThere(k: Link, s: Side, n: State, c1: nat, c2: nat)
    requires Friendly(k) && c1 in k.dial && c2 in k.dial && c1 != c2 && k.dial[c1] == k.dial[c2]
    requires n.conns == map[s := c2] && c1 in n.replied && c2 in n.replied
    requires Idle(n, Other(s), c1) && Idle(n, Other(s), c2)
    ensures var m := Run(k, n, [Register(Other(s), c2), Register(Other(s), c1)]);
            && m.conns == map[s := c2, Other(s) := c1] && m.broken == n.broken && m.ended == n.ended
            && n.reading <= m.reading && n.closed <= m.closed
            && (Other(s), c1) in m.reading && (Other(s), c2) in m.closed
  {
    var o := Other(s);
    RunTwo(k, n, Register(o, c2), Register(o, c1));
    EnterFree(k, n, o, c2);
    var m := n.(reading := n.reading + {(o, c2)}, conns := n.conns[o := c2]);
    EnterWins(k, m, o, c1);
    assert m.conns[o := c1] == map[s := c2, o := c1];
  }

  lemma EnterFree(k: Link, n: State, s: Side, c: nat)
    requires Friendly(k) && c in k.dial && c in n.replied && Idle(n, s, c) && s !in n.conns
    ensures Next(k, n, Register(s, c)) == n.(reading := n.reading + {(s, c)}, conns := n.conns[s := c])
  {
  }

  lemma EnterWins(k: Link, n: State, s: Side, c: nat)
    requires Friendly(k) && c in k.dial && c in n.replied && Idle(n, s, c)
    requires s in n.conns && n.conns[s] in k.dial && n.conns[s] != c && Keeps(k, s, n.conns[s], c)
    ensures Next(k, n, Register(s, c)) ==
            n.(closed := n.closed + {(s, n.conns[s])}, reading := n.reading + {(s, c)}, conns := n.conns[s := c])
  {
  }

  /** Each end has closed the one the other end keeps; both clean up. */
  lemma CrossOver(k: Link, s: Side, n: State, c1: nat, c2: nat)
    requires n.conns == map[s := c2, Other(s) := c1] && c1 != c2
    requires (s, c2) in n.reading && (Other(s), c1) in n.reading
    requires (s, c1) in n.closed && (Other(s), c2) in n.closed
    ensures var m := Run(k, n, [Cleanup(s, c2), Cleanup(Other(s), c1)]);
            m.conns == map[] && m.broken == n.broken && m.ended == n.ended + {(s, c2)} + {(Other(s), c1)}
  {
    var o := Other(s);
    RunTwo(k, n, Cleanup(s, c2), Cleanup(o, c1));
    var m := Next(k, n, Cleanup(s, c2));
    assert m.conns == map[o := c1] && (o, c1) in m.reading && (s, c1) in m.closed;
  }

  lemma Cross(k: Link, s: Side, n: State, D: set<nat>, c1: nat, c2: nat) returns (steps: seq<Step>)
    requires Friendly(k) && Swept(s, n, D) && D <= k.dial.Keys && s in n.conns && n.conns[s] == c1
    requires c1 in D && c2 in k.dial && c2 !in D && k.dial[c1] == k.dial[c2]
    ensures var m := Run(k, n, steps);
            m.conns == map[] && m.broken == {} && forall c :: c in D + {c2} ==> Over(m, c)
  {
    var o := Other(s);
    var first, second := [Accept(c2), Register(s, c2)], [Register(o, c2), Register(o, c1)];
    var third := [Cleanup(s, c2), Cleanup(o, c1)];
    CrossHere(k, s, n, D, c1, c2);
    CrossThere(k, s, Run(k, n, first), c1, c2);
    CrossOver(k, s, Run(k, Run(k, n, first), second), c1, c2);
    RunAppend(k, n, first, second);
    RunAppend(k, n, first + second, third);
    steps := first + second + third;
    var m := Run(k, n, steps);
    forall c | c in D + {c2} ensures Over(m, c) {
      assert (s, c) in m.ended || (o, c) in m.ended;
    }
  }

  /** Two connections dialled by the same node, whichever: after some run both are over
      and neither node has a connection, though the network lost none. */
  lemma BothLost(k: Link, c1: nat, c2: nat) returns (steps: seq<Step>)
    requires Friendly(k) && c1 in k.dial && c2 in k.dial && c1 != c2 && k.dial[c1] == k.dial[c2]
    ensures var n := Run(k, START, steps);
            n.conns == map[] && n.broken == {} && Over(n, c1) && Over(n, c2)
  {
    var s := k.dial[c1];
    assert Swept(s, START, {});
    var enter := SweepOne(k, s, START, {}, c1);
    var cross := Cross(k, s, Run(k, START, enter), {} + {c1}, c1, c2);
    RunAppend(k, START, enter, cross);
    steps := enter + cross;
  }

  /** Two connections dialled by the same node, be it the lower or, if the lower has
      dialled none, the higher: some run loses these two and all others. */
  lemma PairLosesAll(k: Link, c1: nat, c2: nat)
    requires Friendly(k) && c1 in k.dial && c2 in k.dial && c1 != c2 && k.dial[c1] == k.dial[c2]
    requires k.dial[c1] == Lower(k) || forall d :: d in k.dial ==> k.dial[d] != Lower(k)
    ensures CanLoseAll(k)
  {
    var s, D := k.dial[c1], k.dial.Keys - {c1, c2};
    var sweep := Sweep(k, s, D);
    var n := Run(k, START, sweep);
    var enter := SweepOne(k, s, n, D, c1);
    var cross := Cross(k, s, Run(k, n, enter), D + {c1}, c1, c2);
    RunAppend(k, START, sweep, enter);
    RunAppend(k, START, sweep + enter, cross);
    assert D + {c1} + {c2} == k.dial.Keys;
    assert AllLost(k, Run(k, START, sweep + enter + cross));
  }

  function DialledBy(k: Link, s: Side): set<nat> {
    set c | c in k.dial && k.dial[c] == s
  }

  lemma TwoOf(a: set<nat>) returns (x: nat, y: nat)
    requires |a| >= 2
    ensures x in a && y in a && x != y
  {
    x :| x in a;
    assert |a - {x}| >= 1;
    y :| y in a - {x};
  }

  lemma OneOf(a: set<nat>) returns (x: nat)
    requires |a| == 1
    ensures a == {x}
  {
    x :| x in a;
    assert |a - {x}| == 0;
  }

  /** Some run loses every connection, without any fault of the network, if and only if
      there are at least two and the lower node has not dialled exactly one. */
  lemma AllLostIff(k: Link)
    requires Friendly(k) && k.dial != map[]
    ensures CanLoseAll(k) <==> |k.dial| >= 2 && |DialledBy(k, Lower(k))| != 1
  {
    var low := DialledBy(k, Lower(k));
    if |k.dial.Keys| == 1 {
      var c := OneOf(k.dial.Keys);
      NeverAllLost(k, c);
    } else if |low| == 1 {
      var c := OneOf(low);
      assert forall d :: d in k.dial && k.dial[d] == Lower(k) ==> d in low;
      assert c in low;
      NeverAllLost(k, c);
    } else if |low| == 0 {
      assert forall d :: d in k.dial ==> d !in low;
      var x, y := TwoOf(k.dial.Keys);
      PairLosesAll(k, x, y);
    } else {
      var x, y := TwoOf(low);
      Sets.TwoMembers(k.dial.Keys, x, y);
      PairLosesAll(k, x, y);
    }
  }

  lemma NeverAllLost(k: Link, c: nat)
    requires Friendly(k) && Dominant(k, c)
    ensures !CanLoseAll(k)
  {
    forall steps ensures !AllLost(k, Run(k, START, steps)) {
      DominantSurvives(k, steps, c);
      EndedIsClosed(k, steps);
    }
  }

  lemma {:induction false} EndedIsClosed(k: Link, steps: seq<Step>)
    ensures Run(k, START, steps).ended <= Run(k, START, steps).closed
  {
    if steps != [] {
      EndedIsClosed(k, steps[..|steps| - 1]);
    }
  }
}
