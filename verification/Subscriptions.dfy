/** What a gateway is subscribed to in its own continuum, compared with what
    its neighbours have asked it for. */
module Subscriptions {
  import opened Lists
  import opened Topology
  import opened Petitions
  import opened Effects
  import opened Soundness
  import opened Shrinking
  import opened Links
  import opened Network

  predicate Domestic(g: State, k: Key) {
    k.cont == 0 || k.cont == g.me
  }

  /** The gateway is subscribed to k exactly if a neighbour has asked for it
      here, or it is the gateway's own declaration. */
  ghost predicate ExactAt(g: State, k: Key) {
    k in g.subscribed <==> k == OwnKey(g.me) || (Lookup(g.petitions, k).dgs != [] && Domestic(g, k))
  }

  ghost predicate Exact(g: State) {
    forall k :: ExactAt(g, k)
  }

  /** k, asked for here, is asked for by `from` alone. */
  ghost predicate Orphaned(g: State, from: Node, k: Key) {
    k != OwnKey(from) && Domestic(g, k) && Lookup(g.petitions, k).dgs == [from]
  }

  lemma AssertionExact(t: Tree, g: State, from: Node, k: Key)
    requires Sound(t, g) && Expected(t, g, from, k) && Exact(g)
    ensures Exact(ReceiveAssertion(g, from, k).state)
  {
    var g0, e := Greet(g, from, k), ReceiveAssertion(g, from, k);
    var g1 := Enrol(g0, from, k);
    EnrolEnrols(g0, from, k);
    EnrolSubscribes(g0, from, k);
    HandleAssertionAsserts(g0, from, k);
    assert e == HandleAssertion(g0, from, k);
    forall k' ensures ExactAt(e.state, k') { AssertedExact(g, from, k, g1, e, k'); }
  }

  lemma EnrolSubscribes(g: State, from: Node, k: Key)
    ensures Enrol(g, from, k).subscribed ==
      g.subscribed + if Lookup(g.petitions, k).dgs == [] && Domestic(g, k) then {k} else {}
  {
  }

  lemma AssertedExact(g: State, from: Node, k: Key, g1: State, e: Effect, k': Key)
    requires ExactAt(g, k') && Asserts(g1, from, k, e) && g1.me == g.me
    requires g1.subscribed ==
      g.subscribed + if Lookup(g.petitions, k).dgs == [] && Domestic(g, k) then {k} else {}
    requires Lookup(g1.petitions, k').dgs == Lookup(g.petitions, k').dgs + if k' == k then [from] else []
    ensures ExactAt(e.state, k')
  {
    assert AssertsOne(g1, from, k, e, k', from);
  }

  lemma CancellationExact(t: Tree, g: State, from: Node, k: Key)
    requires Sound(t, g) && from in Lookup(g.petitions, k).dgs && Proper(t, k) && k != OwnKey(from) && Exact(g)
    ensures Exact(HandleCancellation(g, from, k).state)
  {
    var e, g1 := HandleCancellation(g, from, k), Withdraw(g, from, k);
    assert KeyOk(t, g, k) && k.subject != Pseudo(from);
    forall k' ensures ExactAt(e.state, k') {
      assert ExactAt(g, k');
      CancellationEffect(g, from, k, from, k');
      WithdrawEffect(g, from, k, k');
      OwnStaysSubscribed(t, g, from, k);
    }
  }

  /** A retraction leaves the gateway subscribed to what the neighbour alone
      had asked for: it unsubscribes from the neighbour's declaration only. */
  lemma RetractionDoes(t: Tree, g: State, from: Node, k: Key)
    requires Sound(t, g) && from in Lookup(g.petitions, OwnKey(from)).dgs
    ensures var g' := HandleCancellation(g, from, OwnKey(from)).state;
      && g'.me == g.me && Lookup(g'.petitions, k).dgs == RemoveFirst(Lookup(g.petitions, k).dgs, from)
      && (k in g'.subscribed <==> k in g.subscribed && (k != OwnKey(from) || !Domestic(g, k)))
  {
    var own := OwnKey(from);
    assert KeyOk(t, g, k);
    RetractionEffect(g, from, from + 1, k);
    RemoveFirstNoRepeats(Lookup(g.petitions, k).dgs, from);
    RetractionWithdraws(t, g, from, k);
  }

  lemma RetractionWithdraws(t: Tree, g: State, from: Node, k: Key)
    requires Sound(t, g) && from in Lookup(g.petitions, OwnKey(from)).dgs
    ensures var g1 := Withdraw(g, from, OwnKey(from));
      && g1.me == g.me
      && RemoveFirst(Lookup(g1.petitions, k).dgs, from) == RemoveFirst(Lookup(g.petitions, k).dgs, from)
      && (k in g1.subscribed <==> k in g.subscribed && (k != OwnKey(from) || !Domestic(g, k)))
  {
    var own := OwnKey(from);
    assert KeyOk(t, g, own);
    WithdrawEffect(g, from, own, k);
    var dgs := Lookup(g.petitions, own).dgs;
    SoleMember(dgs, from);
    assert RemoveFirst(dgs, from) == [];
  }

  lemma StaleSubscription(t: Tree, g: State, from: Node, k: Key)
    requires Sound(t, g) && from in Lookup(g.petitions, OwnKey(from)).dgs && Orphaned(g, from, k)
    ensures var g' := HandleCancellation(g, from, OwnKey(from)).state;
      k in g'.subscribed && Lookup(g'.petitions, k).dgs == []
  {
    assert KeyOk(t, g, k);
    RetractionDoes(t, g, from, k);
  }

  lemma RetractionExact(t: Tree, g: State, from: Node)
    requires Sound(t, g) && from in Lookup(g.petitions, OwnKey(from)).dgs && Exact(g)
    ensures Exact(HandleCancellation(g, from, OwnKey(from)).state) <==> forall k :: !Orphaned(g, from, k)
  {
    var g' := HandleCancellation(g, from, OwnKey(from)).state;
    forall k ensures ExactAt(g', k) <==> !Orphaned(g, from, k) {
      assert ExactAt(g, k) && KeyOk(t, g, k);
      RetractionDoes(t, g, from, k);
      OrphanedOnly(t, g, from, k);
    }
  }

  lemma OrphanedOnly(t: Tree, g: State, from: Node, k: Key)
    requires Sound(t, g) && from in Lookup(g.petitions, OwnKey(from)).dgs
    ensures var dgs := Lookup(g.petitions, k).dgs;
      RemoveFirst(dgs, from) == [] <==> dgs == [] || dgs == [from]
    ensures k == OwnKey(from) ==> k != OwnKey(g.me) && RemoveFirst(Lookup(g.petitions, k).dgs, from) == []
    ensures k == OwnKey(g.me) ==> Lookup(g.petitions, k).dgs == []
  {
    assert KeyOk(t, g, k) && KeyOk(t, g, OwnKey(from));
    OwnDmsHolds(t, g);
    var dgs := Lookup(g.petitions, k).dgs;
    RemoveFirstNoRepeats(dgs, from);
    if RemoveFirst(dgs, from) == [] && dgs != [] { SoleMember(dgs, from); }
    if k == OwnKey(from) { SoleMember(dgs, from); }
  }

  /** So it is at any gateway x that hears from its neighbour y a declaration,
      one petition that concerns x, and the retraction. */
  lemma StaleExample(t: Tree, x: Node, y: Node, self: ModuleId, neighbors: seq<Node>, k: Key)
    requires Valid(t) && Adj(t, x, y) && NoRepeats(neighbors) && forall z :: z in neighbors <==> Adj(t, x, z)
    requires k.subject >= 0 && (k.cont == 0 || k.cont == x)
    ensures var g0 := Start(x, self, true, neighbors).state;
      var g1 := Receive(g0, y, Assertion(OwnKey(y))).state;
      var g2 := Receive(g1, y, Assertion(k)).state;
      var g3 := Receive(g2, y, Cancellation(OwnKey(y))).state;
      && Lookup(g2.petitions, k).dgs == [y] && k in g2.subscribed
      && Lookup(g3.petitions, k).dgs == [] && k in g3.subscribed
  {
    var g0 := Start(x, self, true, neighbors).state;
    AdjFacts(t, x, y);
    StartIsSound(t, x, self, neighbors);
    NobodyAsks(x, self, neighbors, k);
    NobodyAsks(x, self, neighbors, OwnKey(y));
    Undeclared(t, g0, y);
    Introduced(t, g0, y, OwnKey(y));
    AsksOnce(t, g0, y, ReceiveAssertion(g0, y, OwnKey(y)).state, k);
  }

  lemma AsksOnce(t: Tree, g: State, y: Node, g1: State, k: Key)
    requires NewAsker(g, y, OwnKey(y), g1) && Lookup(g.petitions, k).dgs == []
    requires Sound(t, g1) && Adj(t, g1.me, y) && y in g1.declared && k.subject >= 0 && Domestic(g1, k)
    ensures var g2 := Receive(g1, y, Assertion(k)).state;
      var g3 := Receive(g2, y, Cancellation(OwnKey(y))).state;
      && Lookup(g2.petitions, k).dgs == [y] && k in g2.subscribed
      && Lookup(g3.petitions, k).dgs == [] && k in g3.subscribed
  {
    Awaited(t, g, y, g1, k);
    Introduced(t, g1, y, k);
    StaleSubscription(t, ReceiveAssertion(g1, y, k).state, y, k);
  }

  lemma NobodyAsks(x: Node, self: ModuleId, neighbors: seq<Node>, k: Key)
    ensures Lookup(Start(x, self, true, neighbors).state.petitions, k).dgs == []
  {
  }

  lemma Undeclared(t: Tree, g: State, y: Node)
    requires Sound(t, g) && Adj(t, g.me, y) && Lookup(g.petitions, OwnKey(y)).dgs == []
    ensures Expected(t, g, y, OwnKey(y))
  {
    AdjFacts(t, g.me, y);
    LinkDirection(t, g.me, y, y);
  }

  lemma Awaited(t: Tree, g: State, y: Node, g1: State, k: Key)
    requires NewAsker(g, y, OwnKey(y), g1)
    requires Adj(t, g1.me, y) && y in g1.declared && k.subject >= 0 && Lookup(g.petitions, k).dgs == []
    ensures Expected(t, g1, y, k) && Lookup(g1.petitions, k).dgs == []
  {
  }

  ghost predicate NewAsker(g: State, from: Node, k: Key, g': State) {
    forall k' :: Lookup(g'.petitions, k').dgs == if k' == k then [from] else Lookup(g.petitions, k').dgs
  }

  /** The first to ask for k. */
  lemma Introduced(t: Tree, g: State, from: Node, k: Key)
    requires Sound(t, g) && Expected(t, g, from, k) && Lookup(g.petitions, k).dgs == []
    ensures var g' := ReceiveAssertion(g, from, k).state;
      && Sound(t, g') && g'.me == g.me && from in g'.declared
      && (Domestic(g, k) ==> k in g'.subscribed)
      && NewAsker(g, from, k, g')
  {
    AssertionKeeps(t, g, from, k);
    var g0 := Greet(g, from, k);
    var g1, e := Enrol(g0, from, k), HandleAssertion(g0, from, k);
    EnrolEnrols(g0, from, k);
    HandleAssertionAsserts(g0, from, k);
    assert e == ReceiveAssertion(g, from, k);
    forall k' ensures Lookup(e.state.petitions, k').dgs == if k' == k then [from] else Lookup(g.petitions, k').dgs {
      assert AssertsOne(g1, from, k, e, k', from);
    }
  }

  /** Nothing else changes subscriptions. */
  lemma LocalExact(t: Tree, g: State, e: Effect)
    requires Sound(t, g) && Exact(g) && SameDgs(g, e.state)
    requires e.state.subscribed == g.subscribed && e.state.me == g.me
    ensures Exact(e.state)
  {
    forall k ensures ExactAt(e.state, k) { assert ExactAt(g, k); }
  }

  lemma TerminationExact(t: Tree, g: State)
    requires Sound(t, g) && Exact(g)
    ensures Exact(Terminate(g).state)
  {
    forall k ensures ExactAt(Terminate(g).state, k) {
      assert ExactAt(g, k);
      TerminationEffect(t, g, g.me, k);
    }
  }

  /** The event makes a neighbour retract itself that alone has asked for
      some petition. */
  ghost predicate Orphans(net: Net, ev: Event)
    requires Enabled(net, ev)
  {
    && ev.Deliver? && net.links[(ev.from, ev.to)][0] == Cancellation(OwnKey(ev.from))
    && exists k :: Orphaned(net.gates[ev.to], ev.from, k)
  }

  /** Every event keeps a gateway's subscriptions exact, except just that one. */
  lemma ExactKept(t: Tree, net: Net, ev: Event)
    requires Inv(t, net) && Enabled(net, ev) && Exact(net.gates[Reaction(net, ev).0])
    ensures Exact(Reaction(net, ev).1.state) <==> !Orphans(net, ev)
  {
    match ev
    case Deliver(f, x) =>
      AdjFacts(t, f, x);
      var q, g := net.links[(f, x)], net.gates[x];
      assert LinkOk(t, net, f, x);
      HeadIsExpected(t, net.gates[f], q, g, f in net.dead);
      if q[0].Assertion? { AssertionExact(t, g, f, q[0].key); }
      else if q[0].key == OwnKey(f) { RetractionExact(t, g, f); }
      else { CancellationExact(t, g, f, q[0].key); }
    case Joined(x, m, k) =>
      AdditionKeeps(t, net.gates[x], m, k);
      AdditionSubscribed(net.gates[x], m, k);
      LocalExact(t, net.gates[x], Subscribe(net.gates[x], m, k));
    case Left(x, m, k) =>
      RemovalKeeps(t, net.gates[x], m, k);
      LocalExact(t, net.gates[x], Unsubscribe(net.gates[x], m, k));
    case Terminated(x) => TerminationExact(t, net.gates[x]);
  }

  lemma AdditionSubscribed(g: State, m: ModuleId, k: Key)
    ensures Subscribe(g, m, k).state.subscribed == g.subscribed && Subscribe(g, m, k).state.me == g.me
  {
  }

  ghost predicate AllExact(net: Net) {
    forall x :: x in net.gates ==> Exact(net.gates[x])
  }

  ghost predicate NeverOrphans(net: Net, evs: seq<Event>)
    requires Legal(net, evs)
    decreases |evs|
  {
    evs == [] || (!Orphans(net, evs[0]) && NeverOrphans(Next(net, evs[0]), evs[1..]))
  }

  /** In every run without such retractions, all gateways are at all times
      subscribed to just what their neighbours want. */
  lemma {:induction false} ExactThroughout(t: Tree, net: Net, evs: seq<Event>)
    requires Inv(t, net) && Legal(net, evs) && AllExact(net) && NeverOrphans(net, evs)
    ensures AllExact(Exec(net, evs))
    decreases |evs|
  {
    if evs != [] {
      var (x, e) := Reaction(net, evs[0]);
      ExactKept(t, net, evs[0]);
      StepKeeps(t, net, evs[0]);
      assert Next(net, evs[0]).gates == net.gates[x := e.state];
      ExactThroughout(t, Next(net, evs[0]), evs[1..]);
    }
  }

  lemma ExactAtStart(t: Tree, net: Net)
    requires Init(t, net)
    ensures AllExact(net)
  {
    forall x | x in net.gates ensures Exact(net.gates[x]) {
      var self, neighbors :| Started(t, net, x, self, neighbors);
      var g := net.gates[x];
      forall k ensures ExactAt(g, k) {
        assert Lookup(g.petitions, k) == if k == OwnKey(x) then g.petitions[0] else Blank(k);
      }
    }
  }
}
