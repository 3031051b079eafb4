/** Which gateways a message reaches. */
module Delivery {
  import opened Lists
  import opened Topology
  import opened Petitions
  import opened Effects
  import opened Soundness
  import opened Shrinking
  import opened Links
  import opened Network
  import opened Relay
  import opened Flood

  /** No gateway has terminated and no petition RPDU is on its way. */
  ghost predicate Quiescent(t: Tree, net: Net) {
    Reachable(t, net) && net.dead == {} && forall l :: l in net.links ==> net.links[l] == []
  }

  lemma ReachableShape(t: Tree, net: Net)
    requires Reachable(t, net)
    ensures Valid(t) && net.gates.Keys == Nodes(t)
    ensures forall x :: x in net.gates ==> net.gates[x].me == x
    ensures forall x :: x in net.gates && x !in net.dead ==> Sound(t, net.gates[x])
  {
    ReachableInv(t, net);
  }

  /** At rest all neighbours are declared, and agree about who asked whom. */
  lemma AtRest(t: Tree, net: Net, a: Node, b: Node, k: Key)
    requires Quiescent(t, net) && Adj(t, a, b)
    ensures a in net.gates && b in net.gates && a in net.gates[b].declared && Sound(t, net.gates[a])
    ensures net.gates[a].me == a
    ensures b in Lookup(net.gates[a].petitions, k).sgs <==> a in Lookup(net.gates[b].petitions, k).dgs
  {
    ReachableInv(t, net);
    AdjFacts(t, a, b);
    assert LinkOk(t, net, a, b);
    assert (a, b) in net.links;
    assert AgreeOn(net.gates[a], net.links[(a, b)], net.gates[b], k);
  }

  /** At rest, a gateway that wants k, for itself or for somebody else than
      its neighbour y in the domain of k, has asked y and y knows it. */
  lemma AskedAtRest(t: Tree, net: Net, x: Node, y: Node, k: Key)
    requires Quiescent(t, net) && Adj(t, x, y) && x in net.gates && y in net.gates
    requires var g := net.gates[x];
      var p := Lookup(g.petitions, k);
      (p.dms != [] || exists z :: z in p.dgs && z != y) && (k.cont == 0 || Conduit(g.petitions, k.cont) == Some(y))
    ensures x in Lookup(net.gates[y].petitions, k).dgs
  {
    AdjFacts(t, x, y);
    AtRest(t, net, x, y, k); AtRest(t, net, y, x, k);
    var g := net.gates[x];
    assert KeyOk(t, g, k);
    assert y in Domain(g, Lookup(g.petitions, k));
  }

  /** At rest every gateway has the right conduit to every other continuum. */
  lemma {:induction false} ConduitsComplete(t: Tree, net: Net, x: Node, c: Node)
    requires Quiescent(t, net) && x in net.gates && c in net.gates && x != c
    ensures Valid(t) && x in Nodes(t) && c in Nodes(t)
    ensures Hop(t, x, c) in Lookup(net.gates[x].petitions, OwnKey(c)).dgs
    ensures Conduit(net.gates[x].petitions, c) == Some(Hop(t, x, c))
    decreases if Valid(t) && x in Nodes(t) && c in Nodes(t) then Dist(t, x, c) else 0
  {
    ReachableShape(t, net);
    HopCloser(t, x, c);
    var y := Hop(t, x, c);
    AdjFacts(t, x, y);
    if y == c {
      OwnDmsHolds(t, net.gates[c]);
    } else {
      ConduitsComplete(t, net, y, c);
      LinkDirection(t, x, y, c);
      assert Hop(t, y, c) in Lookup(net.gates[y].petitions, OwnKey(c)).dgs && Hop(t, y, c) != x;
    }
    AskedAtRest(t, net, y, x, OwnKey(c));
    HeardFromHop(t, net.gates[x], c, y);
  }

  lemma HeardFromHop(t: Tree, g: State, c: Node, y: Node)
    requires Sound(t, g) && y in Lookup(g.petitions, OwnKey(c)).dgs
    ensures Conduit(g.petitions, c) == Some(y)
  {
    assert KeyOk(t, g, OwnKey(c));
    ProperLookups(t, g);
    ConduitIsHop(t, g.petitions, c);
    SoleMember(Lookup(g.petitions, OwnKey(c)).dgs, y);
  }

  // ---- Published messages -----------------------------------------------------------------

  /** The gateways to which x relays a copy of m that came from `from`. */
  function PublishRelay(net: Net, within: (nat, nat) -> bool, m: Message): Relaying {
    (from, x) =>
      if x in net.gates then set y | y in Recipients(within, m, net.gates[x].petitions, Some(from)) else {}
  }

  /** The gateways to which the gateway of the origin forwards m. */
  function PublishStart(net: Net, within: (nat, nat) -> bool, m: Message, origin: Node): set<Node>
    requires origin in net.gates
  {
    set y | y in Recipients(within, m, net.gates[origin].petitions, None)
  }

  /** hs is what has happened to m so far, published in continuum `origin`. */
  ghost predicate Published(net: Net, within: (nat, nat) -> bool, m: Message, origin: Node, hs: seq<Handling>, s: Spread)
    requires origin in net.gates
  {
    && Run(Spread(Copies(origin, PublishStart(net, within, m, origin)), multiset{origin}), hs, s)
    && Follows(PublishRelay(net, within, m), hs)
  }

  lemma AskersAreNeighbours(t: Tree, g: State, p: Petition, y: Node)
    requires Sound(t, g) && p in g.petitions && y in p.dgs
    ensures Adj(t, g.me, y)
  {
    ListedIsLooked(g.petitions, p);
    assert KeyOk(t, g, p.key);
  }

  lemma PublishedOnwards(t: Tree, net: Net, within: (nat, nat) -> bool, m: Message, origin: Node)
    requires Quiescent(t, net) && origin in net.gates
    ensures RelaysOnwards(t, PublishRelay(net, within, m))
    ensures forall z :: z in PublishStart(net, within, m, origin) ==> Adj(t, origin, z)
  {
    ReachableShape(t, net);
    forall from, x, z | Adj(t, x, from) && z in PublishRelay(net, within, m)(from, x) ensures Adj(t, x, z) && z != from {
      var p :| p in net.gates[x].petitions && Satisfies(within, m, p.key) && z in p.dgs;
      AskersAreNeighbours(t, net.gates[x], p, z);
    }
    forall z | z in PublishStart(net, within, m, origin) ensures Adj(t, origin, z) {
      var p :| p in net.gates[origin].petitions && Satisfies(within, m, p.key) && z in p.dgs;
      AskersAreNeighbours(t, net.gates[origin], p, z);
    }
  }

  /** x wants what k asks for, from the direction of `origin`. */
  ghost predicate Wants(t: Tree, net: Net, k: Key, origin: Node, x: Node)
    requires x in net.gates
  {
    var p := Lookup(net.gates[x].petitions, k);
    p.dms != [] || exists z :: z in p.dgs && z != Hop(t, x, origin)
  }

  lemma WantedStep(t: Tree, net: Net, within: (nat, nat) -> bool, m: Message, origin: Node, k: Key, x: Node)
    requires Quiescent(t, net) && origin in net.gates && x in net.gates && Wants(t, net, k, origin, x)
    requires m.cont == origin && Satisfies(within, m, k) && x != origin
    ensures var y := Hop(t, x, origin); y in net.gates && Wants(t, net, k, origin, y)
    ensures Sends(t, origin, PublishStart(net, within, m, origin), PublishRelay(net, within, m), x)
  {
    ReachableShape(t, net);
    HopCloser(t, x, origin);
    var y := Hop(t, x, origin);
    if k.cont != 0 { ConduitsComplete(t, net, x, origin); }
    AskedAtRest(t, net, x, y, k);
    LinkDirection(t, x, y, origin);
    IsRecipient(within, m, net.gates[y].petitions, k, x, if y == origin then None else Some(Hop(t, y, origin)));
  }

  lemma IsRecipient(within: (nat, nat) -> bool, m: Message, ps: seq<Petition>, k: Key, x: Node, skip: Option<Node>)
    requires x in Lookup(ps, k).dgs && Satisfies(within, m, k) && skip != Some(x)
    ensures x in Recipients(within, m, ps, skip)
  {
    LookedIsListed(ps, k);
  }

  lemma {:induction false} WantedIsSent(t: Tree, net: Net, within: (nat, nat) -> bool, m: Message, origin: Node,
                                        k: Key, x: Node)
    requires Quiescent(t, net) && origin in net.gates && x in net.gates && Wants(t, net, k, origin, x)
    requires m.cont == origin && Satisfies(within, m, k)
    ensures Valid(t) && origin in Nodes(t) && x in Nodes(t)
    ensures OnTheWay(t, origin, PublishStart(net, within, m, origin), PublishRelay(net, within, m), x)
    decreases if Valid(t) && origin in Nodes(t) && x in Nodes(t) then Dist(t, x, origin) else 0
  {
    ReachableShape(t, net);
    if x != origin {
      HopCloser(t, x, origin);
      WantedStep(t, net, within, m, origin, k, x);
      WantedIsSent(t, net, within, m, origin, k, Hop(t, x, origin));
    }
  }

  /** In a tree at rest, a message published anywhere reaches every gateway
      one of whose modules has asked for it: when relaying is over, that
      gateway has handled the message exactly once, and the module is among
      those it hands the message to if the message came from elsewhere. */
  lemma PublishedReaches(t: Tree, net: Net, within: (nat, nat) -> bool, m: Message, origin: Node,
                         hs: seq<Handling>, s: Spread, x: Node, p: Petition, reader: ModuleId)
    requires Quiescent(t, net) && origin in net.gates && x in net.gates && m.cont == origin
    requires p in net.gates[x].petitions && reader in p.dms && Satisfies(within, m, p.key)
    requires Published(net, within, m, origin, hs, s) && s.flight == multiset{}
    ensures s.handled[x] == 1 && (x != origin ==> reader in Readers(within, m, net.gates[x].petitions))
  {
    ReachableShape(t, net);
    ListedIsLooked(net.gates[x].petitions, p);
    WantedIsSent(t, net, within, m, origin, p.key, x);
    PublishedOnwards(t, net, within, m, origin);
    var start := PublishStart(net, within, m, origin);
    FloodReaches(t, origin, start, PublishRelay(net, within, m),
      Spread(Copies(origin, start), multiset{origin}), hs, s, x);
  }

  /** Relaying can always be carried on until it is over. */
  lemma PublishedEnds(t: Tree, net: Net, within: (nat, nat) -> bool, m: Message, origin: Node,
                      hs: seq<Handling>, s: Spread)
    returns (hs': seq<Handling>, s': Spread)
    requires Quiescent(t, net) && origin in net.gates && Published(net, within, m, origin, hs, s)
    ensures hs <= hs' && Published(net, within, m, origin, hs', s') && s'.flight == multiset{}
  {
    ReachableShape(t, net);
    PublishedOnwards(t, net, within, m, origin);
    var start := PublishStart(net, within, m, origin);
    hs', s' := FloodEnds(t, origin, start, PublishRelay(net, within, m),
      Spread(Copies(origin, start), multiset{origin}), hs, s);
  }

  /** The gateway of the origin has subscribed to what its neighbours want, so
      it gets to see the message. */
  lemma OriginSubscribed(t: Tree, net: Net, within: (nat, nat) -> bool, m: Message, origin: Node, y: Node)
    requires Quiescent(t, net) && origin in net.gates && m.cont == origin
    requires y in PublishStart(net, within, m, origin)
    ensures exists k :: k in net.gates[origin].subscribed && Satisfies(within, m, k)
  {
    ReachableInv(t, net);
    var g := net.gates[origin];
    var p :| p in g.petitions && Satisfies(within, m, p.key) && y in p.dgs;
    AskedIsSubscribed(t, g, p, y);
    assert Satisfies(within, m, p.key) && p.key in g.subscribed;
  }

  lemma AskedIsSubscribed(t: Tree, g: State, p: Petition, y: Node)
    requires Sound(t, g) && p in g.petitions && y in p.dgs && (p.key.cont == 0 || p.key.cont == g.me)
    ensures p.key in g.subscribed
  {
    ListedIsLooked(g.petitions, p);
    assert KeyOk(t, g, p.key);
  }

  /** The DGSs hold neighbours of the gateway. */
  ghost predicate NeighboursAsk(t: Tree, g: State) {
    forall p, y :: p in g.petitions && y in p.dgs ==> Adj(t, g.me, y)
  }

  /** Whatever the DGSs hold, as long as it is neighbours, a relaying gateway
      sends to neighbours other than the sender, once each. */
  lemma RelayIsOnwards(t: Tree, g: State, within: (nat, nat) -> bool, m: Message, from: Node)
    requires NeighboursAsk(t, g)
    ensures var to := Recipients(within, m, g.petitions, Some(from));
      NoRepeats(to) && Onwards(t, g.me, from, set y | y in to)
  {
    RecipientsOnce(within, m, g.petitions, Some(from));
  }

  /** A gateway in state g does h about a published message. */
  ghost predicate RelaysAs(within: (nat, nat) -> bool, m: Message, g: State, h: Handling) {
    g.me == h.x && h.out == set y | y in Recipients(within, m, g.petitions, Some(h.from))
  }

  /** Whatever the petitions of the gateways are when they handle a published
      message, and however they change meanwhile: as long as the DGSs hold
      neighbours, relaying ends, and nobody handles the message twice. */
  lemma PublishedTerminates(t: Tree, within: (nat, nat) -> bool, m: Message, g: State, s: Spread,
                            hs: seq<Handling>, gs: seq<State>, s': Spread)
    requires Valid(t) && g.me in Nodes(t) && NeighboursAsk(t, g)
    requires Begun(g.me, (set y | y in Recipients(within, m, g.petitions, None)), s) && Run(s, hs, s')
    requires |gs| == |hs| && forall i :: 0 <= i < |hs| ==> NeighboursAsk(t, gs[i]) && RelaysAs(within, m, gs[i], hs[i])
    ensures (forall x :: x in s'.handled ==> x in Nodes(t) && s'.handled[x] == 1) && |hs| < |Nodes(t)|
  {
    forall h | h in hs ensures Onwards(t, h.x, h.from, h.out) {
      var i :| 0 <= i < |hs| && hs[i] == h;
      RelayIsOnwards(t, gs[i], within, m, h.from);
    }
    RelayTerminates(t, g.me, (set y | y in Recipients(within, m, g.petitions, None)), s, hs, s');
  }

  /** So it is in a network whose petitions change while the message travels:
      each gateway handles it in some reachable state. */
  lemma PublishedTerminatesInFlux(t: Tree, within: (nat, nat) -> bool, m: Message, g: State, s: Spread,
                                  hs: seq<Handling>, gs: seq<State>, s': Spread)
    requires Occurs(t, g)
    requires Begun(g.me, (set y | y in Recipients(within, m, g.petitions, None)), s) && Run(s, hs, s')
    requires |gs| == |hs| && forall i :: 0 <= i < |hs| ==> Occurs(t, gs[i]) && RelaysAs(within, m, gs[i], hs[i])
    ensures (forall x :: x in s'.handled ==> x in Nodes(t) && s'.handled[x] == 1) && |hs| < |Nodes(t)|
  {
    OccursAmongNeighbours(t, g);
    forall i | 0 <= i < |gs| ensures NeighboursAsk(t, gs[i]) {
      OccursAmongNeighbours(t, gs[i]);
    }
    PublishedTerminates(t, within, m, g, s, hs, gs, s');
  }

  /** g is the state of a gateway that has not terminated in some reachable
      state of the network. */
  ghost predicate Occurs(t: Tree, g: State) {
    exists net :: Reachable(t, net) && g.me in net.gates && g.me !in net.dead && net.gates[g.me] == g
  }

  lemma OccursAmongNeighbours(t: Tree, g: State)
    requires Occurs(t, g)
    ensures Valid(t) && g.me in Nodes(t) && NeighboursAsk(t, g)
  {
    var net :| Reachable(t, net) && g.me in net.gates && g.me !in net.dead && net.gates[g.me] == g;
    ReachableShape(t, net);
    forall p, y | p in g.petitions && y in p.dgs ensures Adj(t, g.me, y) {
      AskersAreNeighbours(t, g, p, y);
    }
  }

  // ---- Private messages ---------------------------------------------------------------------

  lemma ConductCloser(t: Tree, g: State, dest: Node, y: Node)
    requires Sound(t, g) && Conduct(g, dest) == Onward(y)
    ensures dest in Nodes(t) && dest != g.me && y == Hop(t, g.me, dest)
  {
    ProperLookups(t, g);
    ConduitIsHop(t, g.petitions, dest);
    assert KeyOk(t, g, OwnKey(dest));
    assert y in Lookup(g.petitions, OwnKey(dest)).dgs;
  }

  /** Even while petitions change, a private message only ever moves one link
      closer to its destination. */
  lemma PrivateCloser(t: Tree, net: Net, x: Node, dest: Node, y: Node)
    requires Reachable(t, net) && x in net.gates && x !in net.dead
    requires Conduct(net.gates[x], dest) == Onward(y)
    ensures Valid(t) && dest in Nodes(t) && x in Nodes(t) && Adj(t, x, y)
    ensures Dist(t, y, dest) + 1 == Dist(t, x, dest)
  {
    ReachableShape(t, net);
    ConductCloser(t, net.gates[x], dest, y);
    HopCloser(t, x, dest);
  }

  /** path[i] sends the message to path[i+1] when the network is nets[i]. */
  ghost predicate Travels(t: Tree, nets: seq<Net>, path: seq<Node>, dest: Node) {
    && |path| == |nets| + 1
    && forall i :: 0 <= i < |nets| ==> Hops(t, nets[i], path[i], path[i+1], dest)
  }

  ghost predicate Hops(t: Tree, net: Net, x: Node, y: Node, dest: Node) {
    Reachable(t, net) && x in net.gates && x !in net.dead && Conduct(net.gates[x], dest) == Onward(y)
  }

  /** A private message cannot loop: it makes at most as many hops as there
      are links between its source and its destination, and meets no gateway
      twice. */
  lemma PrivateCannotLoop(t: Tree, nets: seq<Net>, path: seq<Node>, dest: Node)
    requires Travels(t, nets, path, dest) && nets != []
    ensures Valid(t) && dest in Nodes(t) && path[0] in Nodes(t)
    ensures Dist(t, path[|nets|], dest) + |nets| == Dist(t, path[0], dest)
    ensures NoRepeats(path)
  {
    var d := Distances(t, path, dest);
    forall i | 0 <= i < |nets| ensures d[i+1] + 1 == d[i] {
      HopCloses(t, nets[i], path[i], path[i+1], dest);
    }
    Falls(d, 0, |nets|);
    forall i, j | 0 <= i < j < |path| ensures path[i] != path[j] {
      Falls(d, i, j);
    }
    assert Hops(t, nets[0], path[0], path[1], dest);
    PrivateCloser(t, nets[0], path[0], dest, path[1]);
  }

  function Distances(t: Tree, path: seq<Node>, dest: Node): (d: seq<nat>)
    ensures |d| == |path| && forall i :: 0 <= i < |d| ==> d[i] == Dist(t, path[i], dest)
  {
    seq(|path|, i requires 0 <= i < |path| => Dist(t, path[i], dest))
  }

  lemma {:induction false} Falls(d: seq<nat>, i: nat, j: nat)
    requires i <= j < |d| && forall k :: 0 <= k < |d| - 1 ==> d[k+1] + 1 == d[k]
    ensures d[j] + j == d[i] + i
    decreases j
  {
    if i < j { Falls(d, i, j - 1); }
  }

  lemma HopCloses(t: Tree, net: Net, x: Node, y: Node, dest: Node)
    requires Hops(t, net, x, y, dest)
    ensures Dist(t, y, dest) + 1 == Dist(t, x, dest)
  {
    PrivateCloser(t, net, x, dest, y);
  }

  /** route leads to dest and every gateway on it conducts to the next one. */
  ghost predicate Conducted(net: Net, route: seq<Node>, dest: Node)
    decreases |route|
  {
    && route != [] && route[0] in net.gates
    && if |route| == 1 then route[0] == dest && Conduct(net.gates[dest], dest) == Here
       else Conduct(net.gates[route[0]], dest) == Onward(route[1]) && Conducted(net, route[1..], dest)
  }

  /** In a tree at rest it gets there, along the only route there is. */
  lemma {:induction false} PrivateArrives(t: Tree, net: Net, x: Node, dest: Node)
    requires Quiescent(t, net) && x in net.gates && dest in net.gates
    ensures Valid(t) && x in Nodes(t) && dest in Nodes(t)
    ensures Conducted(net, Route(t, x, dest), dest)
    decreases if Valid(t) && x in Nodes(t) && dest in Nodes(t) then Dist(t, x, dest) else 0
  {
    ReachableShape(t, net);
    if x != dest {
      HopCloser(t, x, dest);
      ConduitsComplete(t, net, x, dest);
      PrivateArrives(t, net, Hop(t, x, dest), dest);
      assert Route(t, x, dest)[1..] == Route(t, Hop(t, x, dest), dest);
    }
  }

  // ---- Announcements ---------------------------------------------------------------------------

  lemma {:induction false} ConductedAt(net: Net, route: seq<Node>, dest: Node, i: nat)
    requires Conducted(net, route, dest) && i < |route|
    ensures route[i] in net.gates
    ensures if i == |route| - 1 then route[i] == dest && Conduct(net.gates[dest], dest) == Here
            else Conduct(net.gates[route[i]], dest) == Onward(route[i+1])
    decreases i
  {
    if i > 0 { ConductedAt(net, route[1..], dest, i - 1); }
  }

  /** What the i-th gateway of a route does with an announcement to the
      continuum at its end: the first forwards it, the others relay it, the
      last announces it. */
  ghost predicate AnnouncedAt(net: Net, route: seq<Node>, dest: Node, i: nat)
    requires i < |route|
  {
    && route[i] in net.gates
    && var g := net.gates[route[i]];
       var to := if i == 0 then ForwardTargeted(g, dest) else Announce(g, dest, route[i-1]);
       && to == (if i == |route| - 1 then [] else [route[i+1]])
       && (AnnouncedHere(g, dest) <==> i == |route| - 1)
  }

  lemma AnnouncedWhereConducted(net: Net, route: seq<Node>, dest: Node, i: nat)
    requires Conducted(net, route, dest) && i < |route| && |route| > 1
    ensures AnnouncedAt(net, route, dest, i)
  {
    ConductedAt(net, route, dest, i);
  }

  /** In a tree at rest, an announcement to another continuum goes along the
      only route there is and arrives in as many hops as the distance. */
  lemma AnnouncementArrives(t: Tree, net: Net, x: Node, dest: Node, i: nat)
    requires Quiescent(t, net) && x in net.gates && dest in net.gates && x != dest && i <= Dist(t, x, dest)
    ensures Valid(t) && x in Nodes(t) && dest in Nodes(t)
    ensures |Route(t, x, dest)| == Dist(t, x, dest) + 1 && AnnouncedAt(net, Route(t, x, dest), dest, i)
  {
    PrivateArrives(t, net, x, dest);
    ReachableShape(t, net);
    HopCloser(t, x, dest);
    AnnouncedWhereConducted(net, Route(t, x, dest), dest, i);
  }

  /** The gateways to which x relays an announcement to all continua. */
  function AnnounceRelay(net: Net): Relaying {
    (from, x) => if x in net.gates then set y | y in Announce(net.gates[x], 0, from) else {}
  }

  function AnnounceStart(net: Net, origin: Node): set<Node>
    requires origin in net.gates
  {
    set y | y in ForwardTargeted(net.gates[origin], 0)
  }

  /** hs is what has happened so far to an announcement made by `origin`. */
  ghost predicate Announced(net: Net, origin: Node, hs: seq<Handling>, s: Spread)
    requires origin in net.gates
  {
    && Run(Spread(Copies(origin, AnnounceStart(net, origin)), multiset{origin}), hs, s)
    && Follows(AnnounceRelay(net), hs)
  }

  lemma AnnouncedOnwards(t: Tree, net: Net, origin: Node)
    requires Quiescent(t, net) && origin in net.gates
    ensures RelaysOnwards(t, AnnounceRelay(net))
    ensures forall z :: z in AnnounceStart(net, origin) ==> Adj(t, origin, z)
  {
    ReachableShape(t, net);
  }

  lemma AnnouncedStep(t: Tree, net: Net, origin: Node, x: Node)
    requires Quiescent(t, net) && origin in net.gates && x in net.gates && x != origin
    ensures Sends(t, origin, AnnounceStart(net, origin), AnnounceRelay(net), x)
  {
    ReachableShape(t, net);
    HopCloser(t, x, origin);
    var y := Hop(t, x, origin);
    AtRest(t, net, x, y, OwnKey(x));
    LinkDirection(t, x, y, origin);
    DeclaredIsTold(net, y, x, Hop(t, y, origin));
  }

  /** A gateway tells those declared to it, except the one it heard from. */
  lemma DeclaredIsTold(net: Net, y: Node, x: Node, from: Node)
    requires y in net.gates && x in net.gates[y].declared && net.gates[y].tree
    ensures x in AnnounceStart(net, y) && (x != from ==> x in AnnounceRelay(net)(from, y))
  {
  }

  lemma {:induction false} AnnouncedOnTheWay(t: Tree, net: Net, origin: Node, x: Node)
    requires Quiescent(t, net) && origin in net.gates && x in net.gates
    ensures Valid(t) && origin in Nodes(t) && x in Nodes(t)
    ensures OnTheWay(t, origin, AnnounceStart(net, origin), AnnounceRelay(net), x)
    decreases if Valid(t) && origin in Nodes(t) && x in Nodes(t) then Dist(t, x, origin) else 0
  {
    ReachableShape(t, net);
    if x != origin {
      HopCloser(t, x, origin);
      AnnouncedStep(t, net, origin, x);
      AnnouncedOnTheWay(t, net, origin, Hop(t, x, origin));
    }
  }

  /** In a tree at rest, an announcement to all continua is handled exactly
      once by every gateway. */
  lemma AnnouncementReachesAll(t: Tree, net: Net, origin: Node, hs: seq<Handling>, s: Spread, x: Node)
    requires Quiescent(t, net) && origin in net.gates && x in net.gates
    requires Announced(net, origin, hs, s) && s.flight == multiset{}
    ensures s.handled[x] == 1
  {
    ReachableShape(t, net);
    AnnouncedOnTheWay(t, net, origin, x);
    AnnouncedOnwards(t, net, origin);
    var start := AnnounceStart(net, origin);
    FloodReaches(t, origin, start, AnnounceRelay(net), Spread(Copies(origin, start), multiset{origin}), hs, s, x);
  }

  lemma AnnouncementEnds(t: Tree, net: Net, origin: Node, hs: seq<Handling>, s: Spread)
    returns (hs': seq<Handling>, s': Spread)
    requires Quiescent(t, net) && origin in net.gates && Announced(net, origin, hs, s)
    ensures hs <= hs' && Announced(net, origin, hs', s') && s'.flight == multiset{}
  {
    ReachableShape(t, net);
    AnnouncedOnwards(t, net, origin);
    var start := AnnounceStart(net, origin);
    hs', s' := FloodEnds(t, origin, start, AnnounceRelay(net),
      Spread(Copies(origin, start), multiset{origin}), hs, s);
  }
}
