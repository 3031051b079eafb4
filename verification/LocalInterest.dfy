/** Which local modules a gateway works for: those whose last notice about a
    petition is a subscription. */
module LocalInterest {
  import opened Lists
  import opened Topology
  import opened Petitions
  import opened Network
  import opened Relay
  import opened Flood
  import opened Delivery

  function Dms(g: State, k: Key): seq<ModuleId> {
    Lookup(g.petitions, k).dms
  }

  /** The gateway ignores subscriptions in its own continuum, and its own. */
  predicate Concerns(g: State, m: ModuleId, k: Key) {
    k.cont != g.me && m != g.self
  }

  // ---- What each event does to the DMSs ------------------------------------------------------------

  /** The same petitions in the same places, with the same DMSs. */
  ghost predicate SameDms(a: seq<Petition>, b: seq<Petition>) {
    |a| == |b| && forall i :: 0 <= i < |a| ==> a[i].key == b[i].key && a[i].dms == b[i].dms
  }

  lemma SameDmsLookup(a: seq<Petition>, b: seq<Petition>, k: Key)
    requires SameDms(a, b)
    ensures Lookup(b, k).dms == Lookup(a, k).dms
  {
    SameKeys(a, b, k);
  }

  /** Petition i gets the DMS of p, which has the same key. */
  lemma UpdateDms(ps: seq<Petition>, i: nat, p: Petition, k: Key)
    requires i < |ps| && i == Find(ps, p.key)
    ensures Lookup(ps[i := p], k).dms == if k == p.key then p.dms else Lookup(ps, k).dms
  {
    var qs := ps[i := p];
    SameKeys(ps, qs, k);
    SameKeys(qs, ps, k);
  }

  lemma AppendDms(ps: seq<Petition>, p: Petition, k: Key)
    requires Find(ps, p.key) == |ps|
    ensures Lookup(ps + [p], k).dms == if k == p.key then p.dms else Lookup(ps, k).dms
  {
    var qs := ps + [p];
    SameKeys(ps, qs, k);
    assert forall j :: 0 <= j < |ps| ==> qs[j] == ps[j];
    if k == p.key { assert qs[|ps|].key == k; }
  }

  lemma AssertAtDms(g: State, i: nat, k: Key)
    requires i < |g.petitions|
    ensures Dms(AssertAt(g, i).state, k) == Dms(g, k)
  {
    SameDmsLookup(g.petitions, AssertAt(g, i).state.petitions, k);
  }

  lemma CancelAtDms(g: State, i: nat, p: Petition, k: Key)
    requires i < |g.petitions| && i == Find(g.petitions, p.key)
    ensures Dms(CancelAt(g, i, p).state, k) == if k == p.key then p.dms else Dms(g, k)
  {
    UpdateDms(g.petitions, i, CancelIfIdle(g, p).0, k);
  }

  lemma WalkDms(ps: seq<Petition>, f: Rule)
    requires forall p :: p in ps ==> f(p).0.key == p.key && f(p).0.dms == p.dms
    ensures SameDms(ps, Walk(ps, f).0)
  {
    var w := Walk(ps, f).0;
    forall i | 0 <= i < |ps| ensures ps[i].key == w[i].key && ps[i].dms == w[i].dms {
      assert ps[i] in ps && w[i] == f(ps[i]).0;
    }
  }

  lemma EnrolDms(g: State, from: Node, j: Key, k: Key)
    ensures Dms(Enrol(g, from, j), k) == Dms(g, k)
    ensures Find(g.petitions, j) < |Enrol(g, from, j).petitions|
  {
    var i, p := Find(g.petitions, j), Lookup(g.petitions, j);
    var p' := p.(dgs := p.dgs + [from]);
    if i < |g.petitions| { UpdateDms(g.petitions, i, p', k); } else { AppendDms(g.petitions, p', k); }
  }

  lemma AssertionDms(g: State, from: Node, j: Key, k: Key)
    ensures Dms(HandleAssertion(g, from, j).state, k) == Dms(g, k)
  {
    EnrolDms(g, from, j, k);
    var g1 := Enrol(g, from, j);
    if j.subject < 0 {
      var f := PassOnRule(g1, from, j);
      forall p | p in g1.petitions ensures f(p).0.key == p.key && f(p).0.dms == p.dms {
        assert f(p) == PassOn(g1, from, j, p);
      }
      WalkDms(g1.petitions, f);
      SameDmsLookup(g1.petitions, Walk(g1.petitions, f).0, k);
    }
    AssertAtDms(PassAll(g1, from, j).state, Find(g.petitions, j), k);
  }

  lemma CancellationDms(g: State, from: Node, j: Key, k: Key)
    ensures Dms(HandleCancellation(g, from, j).state, k) == Dms(g, k)
  {
    var i := Find(g.petitions, j);
    if i < |g.petitions| && from in g.petitions[i].dgs {
      var g1 := Withdraw(g, from, j);
      UpdateDms(g.petitions, i, g1.petitions[i], k);
      SameKeys(g.petitions, g1.petitions, j);
      if j.subject != Pseudo(from) {
        CancelAtDms(g1, i, g1.petitions[i], k);
      } else {
        RetractionDms(g1, from, k);
      }
    }
  }

  lemma RetractionDms(g: State, from: Node, k: Key)
    ensures Lookup(Walk(g.petitions, RetractRule(g, from)).0, k).dms == Dms(g, k)
  {
    var f := RetractRule(g, from);
    forall p | p in g.petitions ensures f(p).0.key == p.key && f(p).0.dms == p.dms {
      assert f(p) == Retract(g, from, p);
    }
    WalkDms(g.petitions, f);
    SameDmsLookup(g.petitions, Walk(g.petitions, f).0, k);
  }

  /** What arrives from other gateways changes no DMS. */
  lemma ReceiveDms(g: State, from: Node, r: Rpdu, k: Key)
    ensures Dms(Receive(g, from, r).state, k) == Dms(g, k)
  {
    match r
    case Assertion(j) =>
      if j.subject == Pseudo(from) { AssertionDms(NoteDeclaration(g, from), from, j, k); }
      else if from in g.declared { AssertionDms(g, from, j, k); }
    case Cancellation(j) => CancellationDms(g, from, j, k);
  }

  lemma TerminateDms(g: State, k: Key)
    ensures Dms(Terminate(g).state, k) == Dms(g, k)
  {
    SameDmsLookup(g.petitions, Terminate(g).state.petitions, k);
  }

  /** A subscription puts the module into the DMS of that petition, whatever
      the continuum, once, and into no other. */
  lemma SubscribeDms(g: State, m: ModuleId, j: Key, k: Key)
    ensures Dms(Subscribe(g, m, j).state, k) ==
      Dms(g, k) + if k == j && Concerns(g, m, j) && m !in Dms(g, j) then [m] else []
  {
    if Concerns(g, m, j) && m !in Dms(g, j) {
      var i, p := Find(g.petitions, j), Lookup(g.petitions, j);
      var p' := p.(dms := p.dms + [m]);
      if i < |g.petitions| { UpdateDms(g.petitions, i, p', k); } else { AppendDms(g.petitions, p', k); }
      AssertAtDms(Admit(g, m, j), i, k);
    }
  }

  /** An unsubscription takes it out of that DMS and out of no other. */
  lemma UnsubscribeDms(g: State, m: ModuleId, j: Key, k: Key)
    ensures Dms(Unsubscribe(g, m, j).state, k) ==
      if k == j && Concerns(g, m, j) then RemoveFirst(Dms(g, j), m) else Dms(g, k)
  {
    var i := Find(g.petitions, j);
    if Concerns(g, m, j) && i < |g.petitions| {
      CancelAtDms(g, i, g.petitions[i].(dms := RemoveFirst(g.petitions[i].dms, m)), k);
    }
  }

  // ---- Runs ------------------------------------------------------------------------------------------

  /** The gateway and its own module are who they were. */
  lemma SameSelf(net: Net, ev: Event)
    requires Enabled(net, ev)
    ensures var (x, e) := Reaction(net, ev); e.state.me == net.gates[x].me && e.state.self == net.gates[x].self
  {
  }

  /** In a run that starts with m in the DMS, or not, m ends up in it. */
  ghost predicate Stands(evs: seq<Event>, x: Node, m: ModuleId, k: Key, was: bool) {
    || (was && forall j :: 0 <= j < |evs| ==> evs[j] != Left(x, m, k))
    || LastJoined(evs, x, m, k)
  }

  /** m's last notice about k is a subscription. */
  ghost predicate LastJoined(evs: seq<Event>, x: Node, m: ModuleId, k: Key) {
    exists i :: JoinedLastAt(evs, x, m, k, i)
  }

  ghost predicate JoinedLastAt(evs: seq<Event>, x: Node, m: ModuleId, k: Key, i: int) {
    0 <= i < |evs| && evs[i] == Network.Joined(x, m, k) && forall j :: i < j < |evs| ==> evs[j] != Left(x, m, k)
  }

  lemma StandsFirst(evs: seq<Event>, x: Node, m: ModuleId, k: Key, was: bool)
    requires evs != []
    ensures Stands(evs, x, m, k, was) <==>
      Stands(evs[1..], x, m, k, evs[0] == Network.Joined(x, m, k) || (was && evs[0] != Left(x, m, k)))
  {
    var rest := evs[1..];
    if LastJoined(rest, x, m, k) {
      var i :| JoinedLastAt(rest, x, m, k, i);
      assert forall j :: i + 1 < j < |evs| ==> evs[j] == rest[j - 1];
      assert JoinedLastAt(evs, x, m, k, i + 1);
    }
    if LastJoined(evs, x, m, k) {
      var i :| JoinedLastAt(evs, x, m, k, i);
      assert forall j :: 0 <= j < |rest| ==> rest[j] == evs[j + 1];
      if i > 0 { assert JoinedLastAt(rest, x, m, k, i - 1); }
    }
    if evs[0] == Network.Joined(x, m, k) && (forall j :: 0 <= j < |rest| ==> rest[j] != Left(x, m, k)) {
      assert forall j :: 0 < j < |evs| ==> evs[j] == rest[j - 1];
      assert JoinedLastAt(evs, x, m, k, 0);
    }
    assert forall j :: 0 < j < |evs| ==> evs[j] == rest[j - 1];
  }

  ghost predicate OnceEach(g: State) {
    forall k :: NoRepeats(Dms(g, k))
  }

  /** What one event does to whether m is in the DMS of k at x. */
  lemma StepMember(net: Net, ev: Event, x: Node, m: ModuleId, k: Key)
    requires Enabled(net, ev) && x in net.gates && net.gates[x].me == x && OnceEach(net.gates[x])
    requires Reaction(net, ev).0 == x
    ensures var g' := Reaction(net, ev).1.state;
      && OnceEach(g')
      && (m in Dms(g', k) <==>
            if Concerns(net.gates[x], m, k)
            then ev == Network.Joined(x, m, k) || (m in Dms(net.gates[x], k) && ev != Left(x, m, k))
            else m in Dms(net.gates[x], k))
  {
    var g, g' := net.gates[x], Reaction(net, ev).1.state;
    forall j ensures NoRepeats(Dms(g', j)) { StepDms(net, ev, x, j); }
    StepDms(net, ev, x, k);
  }

  lemma StepDms(net: Net, ev: Event, x: Node, k: Key)
    requires Enabled(net, ev) && x in net.gates && OnceEach(net.gates[x]) && Reaction(net, ev).0 == x
    ensures var g, dms := net.gates[x], Dms(Reaction(net, ev).1.state, k);
      && NoRepeats(dms)
      && forall m :: m in dms <==>
           (m in Dms(g, k) && !(ev == Left(x, m, k) && Concerns(g, m, k)))
           || (ev == Network.Joined(x, m, k) && Concerns(g, m, k))
  {
    var g := net.gates[x];
    assert NoRepeats(Dms(g, k));
    match ev
    case Deliver(from, _) => ReceiveDms(g, from, net.links[(from, x)][0], k);
    case Joined(_, m, j) => SubscribeDms(g, m, j, k);
    case Left(_, m, j) =>
      UnsubscribeDms(g, m, j, k);
      RemoveFirstNoRepeats(Dms(g, k), m);
    case Terminated(_) => TerminateDms(g, k);
  }

  /** The gateway at x, in its place, with each DMS free of repeats. */
  ghost predicate Settled(net: Net, x: Node) {
    x in net.gates && net.gates[x].me == x && OnceEach(net.gates[x])
  }

  lemma StepAtX(net: Net, ev: Event, x: Node, m: ModuleId, k: Key)
    requires Enabled(net, ev) && Settled(net, x)
    ensures Settled(Next(net, ev), x) && Next(net, ev).gates[x].self == net.gates[x].self
    ensures m in Dms(Next(net, ev).gates[x], k) <==>
      if Concerns(net.gates[x], m, k)
      then ev == Network.Joined(x, m, k) || (m in Dms(net.gates[x], k) && ev != Left(x, m, k))
      else m in Dms(net.gates[x], k)
  {
    SameSelf(net, ev);
    NextGate(net, ev, x);
    if Reaction(net, ev).0 == x { StepMember(net, ev, x, m, k); }
  }

  lemma NextGate(net: Net, ev: Event, x: Node)
    requires Enabled(net, ev) && x in net.gates
    ensures x in Next(net, ev).gates
    ensures Next(net, ev).gates[x] == if Reaction(net, ev).0 == x then Reaction(net, ev).1.state else net.gates[x]
  {
  }

  lemma {:induction false} RunAtX(net: Net, evs: seq<Event>, x: Node, m: ModuleId, k: Key)
    requires Legal(net, evs) && Settled(net, x)
    ensures Settled(Exec(net, evs), x) && Exec(net, evs).gates[x].self == net.gates[x].self
    ensures m in Dms(Exec(net, evs).gates[x], k) <==>
      if Concerns(net.gates[x], m, k) then Stands(evs, x, m, k, m in Dms(net.gates[x], k))
      else m in Dms(net.gates[x], k)
    decreases |evs|
  {
    if evs != [] {
      StepAtX(net, evs[0], x, m, k);
      RunAtX(Next(net, evs[0]), evs[1..], x, m, k);
      StandsFirst(evs, x, m, k, m in Dms(net.gates[x], k));
    }
  }

  /** A gateway starts with its own module in the DMS of its own declaration. */
  lemma StartDms(me: Node, self: ModuleId, tree: bool, neighbors: seq<Node>, k: Key)
    ensures Dms(Start(me, self, tree, neighbors).state, k) == if k == OwnKey(me) then [self] else []
  {
  }

  /** In every run from the start of a network, the DMS of a petition at x holds
      exactly the other modules whose last notice about it is a subscription,
      if it is not about x's own continuum; and x's own module for its own
      declaration. */
  lemma ServedExactly(t: Tree, net0: Net, evs: seq<Event>, x: Node, m: ModuleId, k: Key)
    requires Init(t, net0) && Legal(net0, evs) && x in net0.gates
    ensures x in Exec(net0, evs).gates && NoRepeats(Dms(Exec(net0, evs).gates[x], k))
    ensures var g := Exec(net0, evs).gates[x];
      m in Dms(g, k) <==>
        (k.cont != x && m != g.self && LastJoined(evs, x, m, k)) || (k == OwnKey(x) && m == g.self)
  {
    var self, neighbors :| Started(t, net0, x, self, neighbors);
    forall j ensures Dms(net0.gates[x], j) == if j == OwnKey(x) then [self] else [] {
      StartDms(x, self, true, neighbors, j);
    }
    RunAtX(net0, evs, x, m, k);
    var g := Exec(net0, evs).gates[x];
    assert OnceEach(g) && g.self == self;
  }

  /** A message published in a tree at rest reaches every module that has
      subscribed to it and not unsubscribed: its gateway handles the message
      once, and the module is among those it is handed to. */
  lemma SubscriberReached(t: Tree, net0: Net, evs: seq<Event>, within: (nat, nat) -> bool, m: Message, origin: Node,
                          hs: seq<Handling>, s: Spread, x: Node, k: Key, reader: ModuleId)
    requires Init(t, net0) && Legal(net0, evs) && Quiescent(t, Exec(net0, evs))
    requires var net := Exec(net0, evs);
      && origin in net.gates && m.cont == origin && x in net0.gates && x in net.gates && reader != net.gates[x].self
      && Published(net, within, m, origin, hs, s) && s.flight == multiset{}
    requires LastJoined(evs, x, reader, k) && k.cont != x && Satisfies(within, m, k)
    ensures s.handled[x] == 1
    ensures x != origin ==> reader in Readers(within, m, Exec(net0, evs).gates[x].petitions)
  {
    var net := Exec(net0, evs);
    ServedExactly(t, net0, evs, x, reader, k);
    var p := Lookup(net.gates[x].petitions, k);
    assert reader in p.dms && p in net.gates[x].petitions;
    PublishedReaches(t, net, within, m, origin, hs, s, x, p, reader);
  }

  lemma ReadersAreServed(within: (nat, nat) -> bool, m: Message, g: State, reader: ModuleId)
    requires UniqueKeys(g.petitions)
    ensures reader in Readers(within, m, g.petitions) <==> exists k :: reader in Dms(g, k) && Satisfies(within, m, k)
  {
    if reader in Readers(within, m, g.petitions) {
      var p :| p in g.petitions && Satisfies(within, m, p.key) && reader in p.dms;
      var i :| 0 <= i < |g.petitions| && g.petitions[i] == p;
      LookupAt(g.petitions, i);
      assert reader in Dms(g, p.key);
    }
    if k :| reader in Dms(g, k) && Satisfies(within, m, k) {
      assert Lookup(g.petitions, k) in g.petitions;
    }
  }

  lemma ReachedKeysUnique(t: Tree, net0: Net, evs: seq<Event>, x: Node)
    requires Init(t, net0) && Legal(net0, evs) && x in Exec(net0, evs).gates && x !in Exec(net0, evs).dead
    ensures UniqueKeys(Exec(net0, evs).gates[x].petitions)
  {
    InitInv(t, net0);
    RunKeeps(t, net0, evs);
  }

  /** And it is handed to nobody else: only to modules with such a subscription. */
  lemma OnlySubscribers(t: Tree, net0: Net, evs: seq<Event>, within: (nat, nat) -> bool, m: Message, x: Node,
                        reader: ModuleId)
    requires Init(t, net0) && Legal(net0, evs) && x in net0.gates && m.subject >= 0
    requires x in Exec(net0, evs).gates && x !in Exec(net0, evs).dead
    ensures var g := Exec(net0, evs).gates[x];
      reader in Readers(within, m, g.petitions) <==>
      reader != g.self && exists k :: LastJoined(evs, x, reader, k) && k.cont != x && Satisfies(within, m, k)
  {
    var g := Exec(net0, evs).gates[x];
    ReachedKeysUnique(t, net0, evs, x);
    ReadersAreServed(within, m, g, reader);
    forall k | Satisfies(within, m, k)
      ensures reader in Dms(g, k) <==> k.cont != x && reader != g.self && LastJoined(evs, x, reader, k) {
      ServedExactly(t, net0, evs, x, reader, k);
    }
  }
}
