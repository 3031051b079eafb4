/** A RAMS network configured as a mesh: every gateway is every other one's
    neighbour, and nobody relays. */
module Mesh {
  import opened Lists
  import opened Topology
  import opened Petitions
  import opened Network
  import opened Loads
  import opened Relay
  import opened Flood
  import opened Delivery

  ghost predicate MeshShape(nodes: set<Node>, net: Net) {
    && net.gates.Keys == nodes && net.dead <= nodes
    && (forall a: Node, b: Node :: (a, b) in net.links <==> a in nodes && b in nodes && a != b)
    && (forall x :: x in net.gates ==> net.gates[x].me == x)
  }

  /** The state right after every gateway has declared itself to all others. */
  ghost predicate MeshInit(nodes: set<Node>, net: Net) {
    && MeshShape(nodes, net) && net.dead == {}
    && forall x :: x in nodes ==> exists self, neighbors :: MeshStarted(nodes, net, x, self, neighbors)
  }

  ghost predicate MeshStarted(nodes: set<Node>, net: Net, x: Node, self: ModuleId, neighbors: seq<Node>)
    requires MeshShape(nodes, net) && x in nodes
  {
    && NoRepeats(neighbors) && (forall y :: y in neighbors <==> y in nodes && y != x)
    && var e := Start(x, self, false, neighbors);
    && net.gates[x] == e.state
    && forall y :: y in nodes && y != x ==> net.links[(x, y)] == To(e.sends, y)
  }

  // ---- One gateway -----------------------------------------------------------------------------

  /** One's own declaration always interests somebody here; any other interests
      nobody and is not passed on. */
  ghost predicate Reserved(g: State, p: Petition) {
    p.key.subject < 0 ==> if p.key == OwnKey(g.me) then p.dms != [] else p.dms == [] && p.sgs == []
  }

  ghost predicate MeshGate(g: State) {
    !g.tree && NoRepeats(g.declared) && forall p :: p in g.petitions ==> Reserved(g, p)
  }

  /** Nobody but the dead is sent anything about declarations except one's own. */
  ghost predicate OwnOnly(g: State, sends: seq<Send>, dead: set<Node>) {
    forall s :: s in sends && s.rpdu.key.subject < 0 && s.dest !in dead ==> s.rpdu == Assertion(OwnKey(g.me))
  }

  /** e is what a gateway of a mesh does that forgets nobody but the dead. */
  ghost predicate Steady(g: State, e: Effect, dead: set<Node>) {
    && MeshGate(e.state) && e.state.me == g.me && OwnOnly(g, e.sends, dead)
    && forall y :: (y in e.state.declared ==> y in g.declared) && (y in g.declared && y !in dead ==> y in e.state.declared)
  }

  lemma UpdateGate(g: State, i: nat, p: Petition)
    requires MeshGate(g) && i < |g.petitions| && Reserved(g, p)
    ensures MeshGate(g.(petitions := g.petitions[i := p]))
  {
    var g' := g.(petitions := g.petitions[i := p]);
    forall q | q in g'.petitions ensures Reserved(g', q) {
      if q != p { assert q in g.petitions; }
    }
  }

  lemma AssertReserved(g: State, p: Petition, dead: set<Node>)
    requires MeshGate(g) && Reserved(g, p)
    ensures Reserved(g, AssertPetition(g, p).0) && OwnOnly(g, AssertPetition(g, p).1, dead)
  {
  }

  lemma CancelReserved(g: State, p: Petition, dead: set<Node>)
    requires !g.tree && Reserved(g, p)
    ensures Reserved(g, CancelIfIdle(g, p).0) && OwnOnly(g, CancelIfIdle(g, p).1, dead)
  {
  }

  lemma EnrolGate(g: State, from: Node, k: Key)
    requires MeshGate(g) && k != OwnKey(g.me)
    ensures MeshGate(Enrol(g, from, k)) && Enrol(g, from, k).me == g.me
    ensures Find(g.petitions, k) < |Enrol(g, from, k).petitions|
  {
    var i, p := Find(g.petitions, k), Lookup(g.petitions, k);
    var p', g' := p.(dgs := p.dgs + [from]), Enrol(g, from, k);
    assert i < |g.petitions| ==> p in g.petitions;
    forall q | q in g'.petitions ensures Reserved(g', q) {
      if q != p' { assert q in g.petitions; }
    }
  }

  lemma PassReserved(g: State, from: Node, k: Key, p: Petition, dead: set<Node>)
    requires MeshGate(g) && Reserved(g, p)
    ensures Reserved(g, PassOn(g, from, k, p).0) && OwnOnly(g, PassOn(g, from, k, p).1, dead)
  {
  }

  lemma RetractReserved(g: State, from: Node, p: Petition, dead: set<Node>)
    requires !g.tree && Reserved(g, p) && from in dead
    ensures Reserved(g, Retract(g, from, p).0) && OwnOnly(g, Retract(g, from, p).1, dead)
  {
    CancelReserved(g, p.(sgs := RemoveFirst(p.sgs, from), dgs := RemoveFirst(p.dgs, from)), dead);
  }

  lemma {:induction false} JoinedOwnOnly(g: State, lists: seq<seq<Send>>, n: nat, dead: set<Node>)
    requires n <= |lists| && forall i :: 0 <= i < |lists| ==> OwnOnly(g, lists[i], dead)
    ensures OwnOnly(g, Petitions.Joined(lists, n), dead)
  {
    if n > 0 { JoinedOwnOnly(g, lists, n - 1, dead); }
  }

  /** What f makes of a petition and sends is in order. */
  ghost predicate Orderly(g: State, f: Rule, p: Petition, dead: set<Node>) {
    Reserved(g, f(p).0) && OwnOnly(g, f(p).1, dead)
  }

  lemma WalkReserved(g: State, f: Rule, dead: set<Node>)
    requires forall p :: p in g.petitions ==> Orderly(g, f, p, dead)
    ensures var w := Walk(g.petitions, f);
      (forall p :: p in w.0 ==> Reserved(g, p)) && OwnOnly(g, w.1, dead)
  {
    var w, replies := Walk(g.petitions, f), Replies(g.petitions, f);
    forall p | p in w.0 ensures Reserved(g, p) {
      var i :| 0 <= i < |w.0| && w.0[i] == p;
      assert Orderly(g, f, g.petitions[i], dead);
    }
    forall i | 0 <= i < |replies| ensures OwnOnly(g, replies[i], dead) {
      assert Orderly(g, f, g.petitions[i], dead);
    }
    JoinedOwnOnly(g, replies, |replies|, dead);
  }

  lemma PassAllGate(g: State, from: Node, k: Key, dead: set<Node>)
    requires MeshGate(g)
    ensures Steady(g, PassAll(g, from, k), dead) && |PassAll(g, from, k).state.petitions| == |g.petitions|
  {
    var f := PassOnRule(g, from, k);
    forall p | p in g.petitions ensures Orderly(g, f, p, dead) {
      PassReserved(g, from, k, p, dead);
      assert f(p) == PassOn(g, from, k, p);
    }
    WalkReserved(g, f, dead);
  }

  lemma AssertionSteady(g: State, from: Node, k: Key, dead: set<Node>)
    requires MeshGate(g) && k != OwnKey(g.me)
    ensures Steady(g, HandleAssertion(g, from, k), dead)
  {
    EnrolGate(g, from, k);
    var g1 := Enrol(g, from, k);
    PassAllGate(g1, from, k, dead);
    var g2, i := PassAll(g1, from, k).state, Find(g.petitions, k);
    assert g2.petitions[i] in g2.petitions;
    AssertReserved(g2, g2.petitions[i], dead);
    UpdateGate(g2, i, AssertPetition(g2, g2.petitions[i]).0);
  }

  lemma CancellationSteady(g: State, from: Node, k: Key, dead: set<Node>)
    requires MeshGate(g) && k.subject != Pseudo(from)
    ensures Steady(g, HandleCancellation(g, from, k), dead)
  {
    var i := Find(g.petitions, k);
    if i < |g.petitions| && from in g.petitions[i].dgs {
      var g1 := Withdraw(g, from, k);
      WithdrawGate(g, from, k);
      assert g1.petitions[i] in g1.petitions;
      CancelReserved(g1, g1.petitions[i], dead);
      UpdateGate(g1, i, CancelIfIdle(g1, g1.petitions[i]).0);
    }
  }

  lemma WithdrawGate(g: State, from: Node, k: Key)
    requires MeshGate(g)
    ensures MeshGate(Withdraw(g, from, k))
  {
    var i, p := Find(g.petitions, k), Lookup(g.petitions, k);
    if i < |g.petitions| {
      assert p in g.petitions;
      UpdateGate(g, i, p.(dgs := RemoveFirst(p.dgs, from)));
    }
  }

  lemma RetractionSteady(g: State, from: Node, k: Key, dead: set<Node>)
    requires MeshGate(g) && k.subject == Pseudo(from) && from in dead
    ensures Steady(g, HandleCancellation(g, from, k), dead)
  {
    var i := Find(g.petitions, k);
    if i < |g.petitions| && from in g.petitions[i].dgs {
      var g1 := Withdraw(g, from, k);
      WithdrawGate(g, from, k);
      var f := RetractRule(g1, from);
      forall p | p in g1.petitions ensures Orderly(g1, f, p, dead) {
        RetractReserved(g1, from, p, dead);
        assert f(p) == Retract(g1, from, p);
      }
      WalkReserved(g1, f, dead);
      RemoveFirstNoRepeats(g1.declared, from);
    }
  }

  lemma SubscribeSteady(g: State, m: ModuleId, k: Key, dead: set<Node>)
    requires MeshGate(g) && k.subject >= 0
    ensures Steady(g, Subscribe(g, m, k), dead)
  {
    if k.cont != g.me && m != g.self && m !in Lookup(g.petitions, k).dms {
      var g1, i := Admit(g, m, k), Find(g.petitions, k);
      forall q | q in g1.petitions ensures Reserved(g1, q) {
        if q != g1.petitions[i] { assert q in g.petitions; }
      }
      AssertReserved(g1, g1.petitions[i], dead);
      UpdateGate(g1, i, AssertPetition(g1, g1.petitions[i]).0);
    }
  }

  lemma UnsubscribeSteady(g: State, m: ModuleId, k: Key, dead: set<Node>)
    requires MeshGate(g) && k.subject >= 0
    ensures Steady(g, Unsubscribe(g, m, k), dead)
  {
    var i := Find(g.petitions, k);
    if k.cont != g.me && m != g.self && i < |g.petitions| {
      var p := g.petitions[i].(dms := RemoveFirst(g.petitions[i].dms, m));
      CancelReserved(g, p, dead);
      UpdateGate(g, i, CancelIfIdle(g, p).0);
    }
  }

  // ---- The network --------------------------------------------------------------------------------

  /** b knows a, or a's declaration is on its way to b; nothing else about
      declarations is, except for the retraction of a that has terminated. */
  ghost predicate MeshLink(net: Net, a: Node, b: Node)
    requires (a, b) in net.links && b in net.gates
  {
    && (a !in net.dead ==> a in net.gates[b].declared || Assertion(OwnKey(a)) in net.links[(a, b)])
    && forall r :: r in net.links[(a, b)] ==> Usual(r, a, net.dead)
  }

  ghost predicate Usual(r: Rpdu, a: Node, dead: set<Node>) {
    r.key.subject < 0 ==> r == Assertion(OwnKey(a)) || (r == Cancellation(OwnKey(a)) && a in dead)
  }

  ghost predicate MeshLinks(nodes: set<Node>, net: Net)
    requires MeshShape(nodes, net)
  {
    forall a, b :: a in nodes && b in nodes && a != b && b !in net.dead ==> MeshLink(net, a, b)
  }

  ghost predicate MeshNode(nodes: set<Node>, g: State, dead: set<Node>) {
    && !g.tree && (g.me !in dead ==> MeshGate(g)) && forall y :: y in g.declared ==> y in nodes && y != g.me
  }

  ghost predicate MeshInv(nodes: set<Node>, net: Net) {
    && MeshShape(nodes, net) && MeshLinks(nodes, net)
    && forall x :: x in nodes ==> MeshNode(nodes, net.gates[x], net.dead)
  }

  lemma MeshInitInv(nodes: set<Node>, net: Net)
    requires MeshInit(nodes, net)
    ensures MeshInv(nodes, net)
  {
    forall x | x in nodes ensures MeshNode(nodes, net.gates[x], net.dead) {
      var self, neighbors :| MeshStarted(nodes, net, x, self, neighbors);
    }
    forall a, b | a in nodes && b in nodes && a != b ensures MeshLink(net, a, b) {
      var self, neighbors :| MeshStarted(nodes, net, a, self, neighbors);
      StartedLink(nodes, net, a, b, self, neighbors);
    }
  }

  lemma StartedLink(nodes: set<Node>, net: Net, a: Node, b: Node, self: ModuleId, neighbors: seq<Node>)
    requires MeshShape(nodes, net) && a in nodes && b in nodes && a != b && MeshStarted(nodes, net, a, self, neighbors)
    ensures MeshLink(net, a, b)
  {
    SendAllTo(neighbors, Assertion(OwnKey(a)), b);
    assert net.links[(a, b)] == [Assertion(OwnKey(a))];
  }

  /** The network when x, which already is g, does e. */
  ghost predicate Does(net: Net, x: Node, g: State, e: Effect, net': Net) {
    && x in net.gates && net'.dead == net.dead && net'.links.Keys == net.links.Keys
    && net'.gates == net.gates[x := e.state]
    && forall l :: l in net.links ==>
         net'.links[l] == if l.0 == x then net.links[l] + To(e.sends, l.1) else net.links[l]
  }

  lemma SteadyKeeps(nodes: set<Node>, net: Net, x: Node, g: State, e: Effect, net': Net)
    requires MeshInv(nodes, net) && x in nodes && x !in net.dead && net.gates[x] == g
    requires Steady(g, e, net.dead) && Does(net, x, g, e, net')
    ensures MeshInv(nodes, net')
  {
    forall a, b | a in nodes && b in nodes && a != b && b !in net'.dead ensures MeshLink(net', a, b) {
      SteadyLink(nodes, net, x, g, e, net', a, b);
    }
    assert MeshNode(nodes, net.gates[x], net.dead);
    assert MeshNode(nodes, e.state, net.dead);
  }

  lemma SteadyLink(nodes: set<Node>, net: Net, x: Node, g: State, e: Effect, net': Net, a: Node, b: Node)
    requires MeshShape(nodes, net) && MeshLinks(nodes, net) && x in nodes && net.gates[x] == g && g.me == x
    requires Steady(g, e, net.dead) && Does(net, x, g, e, net')
    requires a in nodes && b in nodes && a != b && b !in net.dead
    ensures MeshLink(net', a, b)
  {
    assert MeshLink(net, a, b);
    forall r | r in net'.links[(a, b)] ensures Usual(r, a, net.dead) {
      if r !in net.links[(a, b)] { SentTo(e.sends, b, r); }
    }
  }

  lemma {:induction false} SentTo(sends: seq<Send>, y: Node, r: Rpdu)
    requires r in To(sends, y)
    ensures Send(y, r) in sends
  {
    if sends[0] != Send(y, r) { SentTo(sends[1..], y, r); }
  }

  /** Every event keeps the invariant. */
  lemma MeshStepKeeps(nodes: set<Node>, net: Net, ev: Event)
    requires MeshInv(nodes, net) && Enabled(net, ev)
    ensures MeshInv(nodes, Next(net, ev))
  {
    match ev
    case Deliver(from, x) => MeshDeliver(nodes, net, from, x);
    case Joined(x, m, k) =>
      assert MeshNode(nodes, net.gates[x], net.dead);
      SubscribeSteady(net.gates[x], m, k, net.dead);
      SteadyKeeps(nodes, net, x, net.gates[x], Subscribe(net.gates[x], m, k), Next(net, ev));
    case Left(x, m, k) =>
      assert MeshNode(nodes, net.gates[x], net.dead);
      UnsubscribeSteady(net.gates[x], m, k, net.dead);
      SteadyKeeps(nodes, net, x, net.gates[x], Unsubscribe(net.gates[x], m, k), Next(net, ev));
    case Terminated(x) =>
      TerminationTells(net.gates[x]);
      MeshTerminate(nodes, net, x, Terminate(net.gates[x]), Next(net, ev));
  }

  lemma TerminationTells(g: State)
    ensures var e := Terminate(g);
      && e.state.me == g.me && e.state.tree == g.tree && e.state.declared == g.declared
      && forall s :: s in e.sends ==> s.rpdu == Cancellation(OwnKey(g.me))
  {
  }

  lemma MeshTerminate(nodes: set<Node>, net: Net, x: Node, e: Effect, net': Net)
    requires MeshInv(nodes, net) && x in nodes && Does(net.(dead := net.dead + {x}), x, net.gates[x], e, net')
    requires var g := net.gates[x];
      && e.state.me == g.me && e.state.tree == g.tree && e.state.declared == g.declared
      && forall s :: s in e.sends ==> s.rpdu == Cancellation(OwnKey(x))
    ensures MeshInv(nodes, net')
  {
    assert MeshNode(nodes, net.gates[x], net.dead);
    forall y | y in nodes ensures MeshNode(nodes, net'.gates[y], net'.dead) {
      assert MeshNode(nodes, net.gates[y], net.dead);
    }
    forall a, b | a in nodes && b in nodes && a != b && b !in net'.dead ensures MeshLink(net', a, b) {
      assert MeshLink(net, a, b);
      forall r | r in net'.links[(a, b)] ensures Usual(r, a, net'.dead) {
        if r in net.links[(a, b)] { assert Usual(r, a, net.dead); } else { SentTo(e.sends, b, r); }
      }
    }
  }

  /** The state g1 of x by the time that it acts on r: declarations are noted. */
  ghost function Noted(g: State, from: Node, r: Rpdu): (g1: State) {
    if r == Assertion(OwnKey(from)) then NoteDeclaration(g, from) else g
  }

  /** The network when x has taken the head of its queue and noted it. */
  ghost function Taken(net: Net, from: Node, x: Node): (net1: Net)
    requires Enabled(net, Deliver(from, x))
  {
    var q := net.links[(from, x)];
    net.(links := net.links[(from, x) := q[1..]], gates := net.gates[x := Noted(net.gates[x], from, q[0])])
  }

  lemma MeshDeliver(nodes: set<Node>, net: Net, from: Node, x: Node)
    requires MeshInv(nodes, net) && Enabled(net, Deliver(from, x))
    ensures MeshInv(nodes, Next(net, Deliver(from, x)))
  {
    var r, g := net.links[(from, x)][0], net.gates[x];
    TakenKeeps(nodes, net, from, x);
    HeadUsual(nodes, net, from, x);
    ReceivedSteady(g, from, r, net.dead);
    DeliveryDoes(net, from, x);
    SteadyKeeps(nodes, Taken(net, from, x), x, Noted(g, from, r), Receive(g, from, r), Next(net, Deliver(from, x)));
  }

  lemma DeliveryDoes(net: Net, from: Node, x: Node)
    requires Enabled(net, Deliver(from, x))
    ensures var r, g := net.links[(from, x)][0], net.gates[x];
      Does(Taken(net, from, x), x, Noted(g, from, r), Receive(g, from, r), Next(net, Deliver(from, x)))
  {
  }

  lemma HeadUsual(nodes: set<Node>, net: Net, from: Node, x: Node)
    requires MeshInv(nodes, net) && Enabled(net, Deliver(from, x))
    ensures from in nodes && x in nodes && x != from && Usual(net.links[(from, x)][0], from, net.dead)
    ensures var g := net.gates[x]; g.me == x && MeshGate(g)
  {
    assert MeshLink(net, from, x) && MeshNode(nodes, net.gates[x], net.dead);
  }

  lemma TakenKeeps(nodes: set<Node>, net: Net, from: Node, x: Node)
    requires MeshInv(nodes, net) && Enabled(net, Deliver(from, x))
    ensures MeshInv(nodes, Taken(net, from, x))
  {
    var q, net1 := net.links[(from, x)], Taken(net, from, x);
    assert q == [q[0]] + q[1..];
    forall a, b | a in nodes && b in nodes && a != b && b !in net.dead ensures MeshLink(net1, a, b) {
      assert MeshLink(net, a, b);
    }
    forall y | y in nodes ensures MeshNode(nodes, net1.gates[y], net.dead) {
      assert MeshNode(nodes, net.gates[y], net.dead);
    }
  }

  lemma ReceivedSteady(g: State, from: Node, r: Rpdu, dead: set<Node>)
    requires MeshGate(g) && from != g.me && Usual(r, from, dead)
    ensures Steady(Noted(g, from, r), Receive(g, from, r), dead)
  {
    match r
    case Assertion(k) => AssertedSteady(g, from, k, dead);
    case Cancellation(k) =>
      if k.subject == Pseudo(from) { RetractionSteady(g, from, k, dead); }
      else { CancellationSteady(g, from, k, dead); }
  }

  lemma AssertedSteady(g: State, from: Node, k: Key, dead: set<Node>)
    requires MeshGate(g) && from != g.me && Usual(Assertion(k), from, dead)
    ensures Steady(Noted(g, from, Assertion(k)), ReceiveAssertion(g, from, k), dead)
  {
    var g1 := Noted(g, from, Assertion(k));
    forall p | p in g1.petitions ensures Reserved(g1, p) { assert Reserved(g, p); }
    if k.subject == Pseudo(from) || from in g.declared { AssertionSteady(g1, from, k, dead); }
  }

  ghost predicate MeshReachable(nodes: set<Node>, net: Net) {
    exists net0, evs :: MeshInit(nodes, net0) && Legal(net0, evs) && net == Exec(net0, evs)
  }

  lemma {:induction false} MeshRunKeeps(nodes: set<Node>, net: Net, evs: seq<Event>)
    requires MeshInv(nodes, net) && Legal(net, evs)
    ensures MeshInv(nodes, Exec(net, evs))
    decreases |evs|
  {
    if evs != [] {
      MeshStepKeeps(nodes, net, evs[0]);
      MeshRunKeeps(nodes, Next(net, evs[0]), evs[1..]);
    }
  }

  lemma MeshReachableInv(nodes: set<Node>, net: Net)
    requires MeshReachable(nodes, net)
    ensures MeshInv(nodes, net)
  {
    var net0, evs :| MeshInit(nodes, net0) && Legal(net0, evs) && net == Exec(net0, evs);
    MeshInitInv(nodes, net0);
    MeshRunKeeps(nodes, net0, evs);
  }

  ghost predicate MeshAtRest(nodes: set<Node>, net: Net) {
    MeshReachable(nodes, net) && Settled(net)
  }

  /** At rest, everybody has declared itself to everybody else, except for
      those that have terminated. */
  lemma MeshDeclared(nodes: set<Node>, net: Net, x: Node)
    requires MeshAtRest(nodes, net) && x in nodes
    ensures x in net.gates && !net.gates[x].tree
    ensures x !in net.dead ==> NoRepeats(net.gates[x].declared)
    ensures forall y :: y in net.gates[x].declared ==> y in nodes && y != x
    ensures forall y :: y in nodes && y != x && x !in net.dead && y !in net.dead ==> y in net.gates[x].declared
  {
    MeshReachableInv(nodes, net);
    assert MeshNode(nodes, net.gates[x], net.dead);
    forall y | y in nodes && y != x && x !in net.dead && y !in net.dead ensures y in net.gates[x].declared {
      assert MeshLink(net, y, x) && !Enabled(net, Deliver(y, x));
    }
  }

  // ---- Announcements --------------------------------------------------------------------------------

  /** Each other one of the nodes has one copy, handled or on its way from the
      origin. */
  ghost predicate OneEach(nodes: set<Node>, origin: Node, s: Spread) {
    && s.handled[origin] == 1 && (forall x :: x in s.handled ==> x in nodes)
    && (forall c :: c in s.flight ==> c.0 == origin && c.1 in nodes && c.1 != origin)
    && (forall x: Node :: x in nodes && x != origin ==> s.handled[x] + s.flight[(origin, x)] == 1)
  }

  /** Nobody relays. */
  ghost predicate Silent(hs: seq<Handling>) {
    forall h :: h in hs ==> h.out == {}
  }

  lemma NobodyRelays(nodes: set<Node>, net: Net, hs: seq<Handling>)
    requires MeshAtRest(nodes, net) && Follows(AnnounceRelay(net), hs)
    ensures net.gates.Keys == nodes && Silent(hs)
  {
    MeshReachableInv(nodes, net);
    forall h | h in hs ensures h.out == {} {
      if h.x in nodes { MeshDeclared(nodes, net, h.x); }
    }
  }

  lemma OneEachStep(nodes: set<Node>, origin: Node, s: Spread, h: Handling)
    requires OneEach(nodes, origin, s) && (h.from, h.x) in s.flight && h.out == {}
    ensures OneEach(nodes, origin, After(s, h)) && |After(s, h).flight| < |s.flight|
  {
    AfterCounts(s, h);
    assert Copies(h.x, {}) == multiset{};
  }

  lemma {:induction false} MeshRun(nodes: set<Node>, origin: Node, s: Spread, hs: seq<Handling>, s': Spread)
    requires OneEach(nodes, origin, s) && Run(s, hs, s') && Silent(hs)
    ensures OneEach(nodes, origin, s')
    decreases |hs|
  {
    if hs != [] {
      assert hs[0] in hs;
      OneEachStep(nodes, origin, s, hs[0]);
      MeshRun(nodes, origin, After(s, hs[0]), hs[1..], s');
    }
  }

  /** The gateways that get copies: at least those that have not terminated. */
  function Reached(net: Net, origin: Node): set<Node>
    requires origin in net.gates
  {
    AnnounceStart(net, origin) + {origin}
  }

  lemma AnnouncedOneEach(nodes: set<Node>, net: Net, origin: Node, hs: seq<Handling>, s: Spread)
    requires MeshAtRest(nodes, net) && origin in nodes && origin in net.gates && Announced(net, origin, hs, s)
    ensures OneEach(Reached(net, origin), origin, s) && Silent(hs)
  {
    NobodyRelays(nodes, net, hs);
    MeshDeclared(nodes, net, origin);
    StartOneEach(Reached(net, origin), origin, AnnounceStart(net, origin));
    MeshRun(Reached(net, origin), origin, Spread(Copies(origin, AnnounceStart(net, origin)), multiset{origin}), hs, s);
  }

  lemma StartOneEach(nodes: set<Node>, origin: Node, out: set<Node>)
    requires nodes == out + {origin} && origin !in out
    ensures OneEach(nodes, origin, Spread(Copies(origin, out), multiset{origin}))
  {
  }

  /** In a mesh at rest, an announcement to all continua is relayed by nobody
      and handled exactly once by every gateway that has not terminated, and at
      most once by the others. */
  lemma MeshAnnouncement(nodes: set<Node>, net: Net, origin: Node, hs: seq<Handling>, s: Spread, x: Node)
    requires MeshAtRest(nodes, net) && origin in nodes && origin in net.gates && origin !in net.dead && x in nodes
    requires Announced(net, origin, hs, s) && s.flight == multiset{}
    ensures Silent(hs) && s.handled[x] <= 1 && (x !in net.dead ==> s.handled[x] == 1)
  {
    AnnouncedOneEach(nodes, net, origin, hs, s);
    MeshDeclared(nodes, net, origin);
  }

  /** And every announcement comes to its end. */
  lemma {:induction false} MeshAnnouncementEnds(nodes: set<Node>, net: Net, origin: Node, hs: seq<Handling>, s: Spread)
    returns (hs': seq<Handling>, s': Spread)
    requires MeshAtRest(nodes, net) && origin in nodes && origin in net.gates && Announced(net, origin, hs, s)
    ensures hs <= hs' && Announced(net, origin, hs', s') && s'.flight == multiset{}
    decreases |s.flight|
  {
    if s.flight == multiset{} {
      hs', s' := hs, s;
    } else {
      var start := Spread(Copies(origin, AnnounceStart(net, origin)), multiset{origin});
      AnnouncedOneEach(nodes, net, origin, hs, s);
      var h := OneMore(AnnounceRelay(net), start, hs, s);
      AnnouncedFurther(nodes, net, origin, hs, s, h);
      hs', s' := MeshAnnouncementEnds(nodes, net, origin, hs + [h], After(s, h));
    }
  }

  lemma AnnouncedFurther(nodes: set<Node>, net: Net, origin: Node, hs: seq<Handling>, s: Spread, h: Handling)
    requires MeshAtRest(nodes, net) && origin in nodes && origin in net.gates
    requires OneEach(Reached(net, origin), origin, s)
    requires (h.from, h.x) in s.flight && Announced(net, origin, hs + [h], After(s, h))
    ensures |After(s, h).flight| < |s.flight|
  {
    NobodyRelays(nodes, net, hs + [h]);
    assert h in hs + [h];
    OneEachStep(Reached(net, origin), origin, s, h);
  }

  // ---- There are such networks ------------------------------------------------------------------------

  /** The members of a set, in some order. */
  ghost function Listing(nodes: set<Node>): (s: seq<Node>)
    ensures NoRepeats(s) && forall x :: x in s <==> x in nodes
  {
    if nodes == {} then []
    else
      var x :| x in nodes;
      Listing(nodes - {x}) + [x]
  }

  ghost function FreshGate(nodes: set<Node>, self: ModuleId, x: Node): (e: Effect) {
    Start(x, self, false, Listing(nodes - {x}))
  }

  ghost function FreshMesh(nodes: set<Node>, self: ModuleId): (net: Net) {
    Net(map x | x in nodes :: FreshGate(nodes, self, x).state,
        map x, y | x in nodes && y in nodes && x != y :: (x, y) := To(FreshGate(nodes, self, x).sends, y),
        {})
  }

  lemma FreshMeshShape(nodes: set<Node>, self: ModuleId)
    ensures MeshShape(nodes, FreshMesh(nodes, self))
  {
  }

  lemma FreshMeshStarted(nodes: set<Node>, self: ModuleId, net: Net, x: Node)
    requires MeshShape(nodes, net) && x in nodes && net.gates[x] == FreshGate(nodes, self, x).state
    requires forall y :: y in nodes && y != x ==> net.links[(x, y)] == To(FreshGate(nodes, self, x).sends, y)
    ensures MeshStarted(nodes, net, x, self, Listing(nodes - {x}))
  {
  }

  lemma FreshMeshIsInit(nodes: set<Node>, self: ModuleId)
    ensures MeshInit(nodes, FreshMesh(nodes, self))
  {
    var net := FreshMesh(nodes, self);
    FreshMeshShape(nodes, self);
    forall x | x in nodes ensures MeshStarted(nodes, net, x, self, Listing(nodes - {x})) {
      FreshMeshStarted(nodes, self, net, x);
    }
  }
}
