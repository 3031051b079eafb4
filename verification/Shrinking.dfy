/** Handlers by which interest shrinks (cancellation, retraction, loss of a
    local subscriber) and AddPetitioner keep a gateway sound. */
module Shrinking {
  import opened Lists
  import opened Topology
  import opened Petitions
  import opened Effects
  import opened Soundness

  /** Petition k has lost interest from g to g', and nobody was forgotten
      who is still to be asked. */
  ghost predicate ShrinksAt(g: State, g': State, k: Key) {
    var p, p' := Lookup(g.petitions, k), Lookup(g'.petitions, k);
    && NoRepeats(p'.dgs) && NoRepeats(p'.sgs)
    && (forall y :: y in p'.dgs ==> y in p.dgs && y in g'.declared)
    && (forall y :: y in p'.sgs ==> y in p.sgs && (k == OwnKey(g.me) || y in g'.declared))
    && (p'.dms == p.dms || (k.subject >= 0 && (p.dms == [] ==> p'.dms == [])))
    && ((p'.dms == [] && p'.dgs == []) || forall y :: y in p.sgs && y in g'.declared ==> y in p'.sgs)
    && (p == Blank(k) ==> p' == p)
    && (p'.dgs != [] && (k.cont == 0 || k.cont == g.me) ==> k in g'.subscribed)
  }

  ghost predicate Shrinks(g: State, g': State) {
    && UniqueKeys(g'.petitions) && NoRepeats(g'.declared)
    && g' == g.(petitions := g'.petitions, declared := g'.declared, subscribed := g'.subscribed)
    && (forall y :: y in g'.declared ==> y in g.declared)
    && OwnKey(g.me) in g'.subscribed
    && (forall k :: Listed(g'.petitions, k) ==> Listed(g.petitions, k))
    && (forall k :: ShrinksAt(g, g', k))
  }

  lemma ShrunkProper(t: Tree, g: State, g': State)
    requires Sound(t, g) && Shrinks(g, g')
    ensures forall k :: Lookup(g'.petitions, k) == Blank(k) || Proper(t, k)
  {
    forall k ensures Lookup(g'.petitions, k) == Blank(k) || Proper(t, k) {
      assert KeyOk(t, g, k); assert ShrinksAt(g, g', k);
    }
  }

  lemma DomainShrinks(t: Tree, g: State, g': State, p: Petition, y: Node)
    requires Sound(t, g) && Shrinks(g, g') && y in Domain(g', p)
    ensures y in Domain(g, p) && y in g'.declared
  {
    if p.key.cont != 0 {
      var c: Node := p.key.cont;
      ProperLookups(t, g); ShrunkProper(t, g, g');
      ConduitIsHop(t, g.petitions, c); ConduitIsHop(t, g'.petitions, c);
      assert KeyOk(t, g, OwnKey(c)); assert ShrinksAt(g, g', OwnKey(c));
      var d := Lookup(g.petitions, OwnKey(c)).dgs;
      assert y in d && y in g'.declared;
      SoleMember(d, y);
    }
  }

  lemma ShrinkKeeps(t: Tree, g: State, g': State)
    requires Sound(t, g) && Shrinks(g, g')
    ensures Sound(t, g')
  {
    forall k ensures KeyOk(t, g', k) {
      assert KeyOk(t, g, k); assert ShrinksAt(g, g', k);
      var p, p' := Lookup(g.petitions, k), Lookup(g'.petitions, k);
      forall y | y in Domain(g', p') && (p'.dms != [] || exists z :: z in p'.dgs && z != y) ensures y in p'.sgs {
        DomainShrinks(t, g, g', p', y);
        assert Domain(g, p') == Domain(g, p);
      }
      assert Complete(g', p');
    }
  }

  /** e tells each neighbour but `who` exactly which petitions it dropped. */
  ghost predicate TellsAt(g: State, e: Effect, y: Node, k: Key) {
    var p, p' := Lookup(g.petitions, k), Lookup(e.state.petitions, k);
    About(To(e.sends, y), k) == if y in p.sgs && y !in p'.sgs then [Cancellation(k)] else []
  }

  lemma ShrinkSteps(t: Tree, g: State, e: Effect, who: Option<Node>)
    requires Sound(t, g) && Shrinks(g, e.state)
    requires forall y: Node, k :: Some(y) != who ==> TellsAt(g, e, y, k)
    requires forall y: Node :: (Some(y) != who && y in Lookup(g.petitions, OwnKey(g.me)).sgs
      ==> y in Lookup(e.state.petitions, OwnKey(g.me)).sgs)
    ensures GoodStep(t, g, e, who)
    ensures forall y: Node, r :: Some(y) != who && r in To(e.sends, y) ==> r.Cancellation? && y in g.declared
  {
    ShrinkKeeps(t, g, e.state);
    forall y: Node, k | Some(y) != who ensures Disciplined(g, e, y, k) {
      assert TellsAt(g, e, y, k); assert ShrinksAt(g, e.state, k);
    }
    forall y: Node, r | Some(y) != who && r in To(e.sends, y)
      ensures SendOk(t, g, y, r) && r.Cancellation? && y in g.declared {
      AboutHas(To(e.sends, y), r);
      assert TellsAt(g, e, y, r.key);
      assert KeyOk(t, g, r.key);
    }
  }

  lemma OwnDmsHolds(t: Tree, g: State)
    requires Sound(t, g)
    ensures var p := Lookup(g.petitions, OwnKey(g.me)); p.dms == [g.self] && p.dgs == []
  {
    assert KeyOk(t, g, OwnKey(g.me));
    NoMembers(Lookup(g.petitions, OwnKey(g.me)).dgs);
  }

  // ---- Cancellations -----------------------------------------------------------------------

  /** e is the outcome of a cancellation of k by `from`, as seen from petition
      k' and neighbour y; `all` says that `from` retracts itself. */
  ghost predicate CancelledAt(g: State, from: Node, k: Key, all: bool, e: Effect, k': Key, y: Node) {
    && ShrinksAt(g, e.state, k') && ((y == from && all) || TellsAt(g, e, y, k'))
    && (y in Lookup(e.state.petitions, k').dgs <==> y in Lookup(g.petitions, k').dgs && !(y == from && (all || k' == k)))
    && (y in e.state.declared <==> y in g.declared && !(y == from && all))
    && (k' == OwnKey(g.me) && y in Lookup(g.petitions, k').sgs && !(y == from && all)
        ==> y in Lookup(e.state.petitions, k').sgs)
  }

  ghost predicate Cancelled(g: State, from: Node, k: Key, all: bool, e: Effect) {
    && UniqueKeys(e.state.petitions) && NoRepeats(e.state.declared)
    && e.state == g.(petitions := e.state.petitions, declared := e.state.declared, subscribed := e.state.subscribed)
    && OwnKey(g.me) in e.state.subscribed
    && (forall k' :: Listed(e.state.petitions, k') ==> Listed(g.petitions, k'))
    && forall k', y :: CancelledAt(g, from, k, all, e, k', y)
  }

  lemma CancellationAt(t: Tree, g: State, from: Node, k: Key, k': Key, y: Node)
    requires Sound(t, g) && from in Lookup(g.petitions, k).dgs && k.subject != Pseudo(from)
    ensures var e := HandleCancellation(g, from, k);
      && UniqueKeys(e.state.petitions)
      && e.state == g.(petitions := e.state.petitions, subscribed := e.state.subscribed)
      && OwnKey(g.me) in e.state.subscribed
      && CancelledAt(g, from, k, false, e, k', y)
  {
    assert KeyOk(t, g, k); OwnDmsHolds(t, g);
    WithdrawEffect(g, from, k, k');
    CancellationEffect(g, from, k, y, k');
    var e, g1 := HandleCancellation(g, from, k), Withdraw(g, from, k);
    OwnStaysSubscribed(t, g, from, k);
    CancelledFrom(t, g, g1, e, from, k, k', y);
  }

  lemma OwnStaysSubscribed(t: Tree, g: State, from: Node, k: Key)
    requires Sound(t, g) && from in Lookup(g.petitions, k).dgs
    ensures var g1 := Withdraw(g, from, k);
      && g1 == g.(petitions := g1.petitions, subscribed := g1.subscribed) && OwnKey(g.me) in g1.subscribed
      && forall q :: q in g.subscribed && (q != k || RemoveFirst(Lookup(g.petitions, k).dgs, from) != [])
           ==> q in g1.subscribed
  {
    OwnDmsHolds(t, g);
  }

  /** What the two steps of a cancellation, to g1 and then e, are known to do. */
  ghost predicate TwoSteps(g: State, g1: State, e: Effect, from: Node, k: Key, k': Key, y: Node) {
    && g1 == g.(petitions := g1.petitions, subscribed := g1.subscribed)
    && (forall q :: q in g.subscribed && (q != k || RemoveFirst(Lookup(g.petitions, k).dgs, from) != [])
          ==> q in g1.subscribed)
    && e.state == g1.(petitions := e.state.petitions)
    && var p, p1, p2 := Lookup(g.petitions, k'), Lookup(g1.petitions, k'), Lookup(e.state.petitions, k');
       && p1 == (if k' == k then p.(dgs := RemoveFirst(p.dgs, from)) else p)
       && p2 == (if k' == k && !Assertable(g, p1) then p1.(sgs := []) else p1)
       && About(To(e.sends, y), k') == if y in p1.sgs && y !in p2.sgs then [Cancellation(k')] else []
  }

  lemma CancelledFrom(t: Tree, g: State, g1: State, e: Effect, from: Node, k: Key, k': Key, y: Node)
    requires Sound(t, g) && from in Lookup(g.petitions, k).dgs && k != OwnKey(g.me)
    requires TwoSteps(g, g1, e, from, k, k', y)
    ensures CancelledAt(g, from, k, false, e, k', y)
  {
    assert KeyOk(t, g, k);
    RemoveFirstNoRepeats(Lookup(g.petitions, k).dgs, from);
    ShrunkFrom(t, g, g1, e, from, k, k', y);
  }

  lemma ShrunkFrom(t: Tree, g: State, g1: State, e: Effect, from: Node, k: Key, k': Key, y: Node)
    requires Sound(t, g) && from in Lookup(g.petitions, k).dgs && k != OwnKey(g.me)
    requires TwoSteps(g, g1, e, from, k, k', y)
    ensures ShrinksAt(g, e.state, k')
  {
    assert KeyOk(t, g, k); assert KeyOk(t, g, k');
    var p := Lookup(g.petitions, k);
    RemoveFirstNoRepeats(p.dgs, from);
    NoMembers(RemoveFirst(p.dgs, from));
  }

  lemma RetractionFrame(t: Tree, g: State, from: Node)
    requires Sound(t, g) && from in Lookup(g.petitions, OwnKey(from)).dgs
    ensures var e := HandleCancellation(g, from, OwnKey(from));
      && UniqueKeys(e.state.petitions) && e.state.declared == RemoveFirst(g.declared, from)
      && e.state == g.(petitions := e.state.petitions, declared := e.state.declared, subscribed := e.state.subscribed)
      && OwnKey(g.me) in e.state.subscribed
      && (forall k :: k in g.subscribed && k != OwnKey(from) ==> k in e.state.subscribed)
  {
    assert KeyOk(t, g, OwnKey(from)); OwnDmsHolds(t, g);
    var y: Node := from + 1;
    RetractionEffect(g, from, y, OwnKey(from));
  }

  lemma RetractionAt(t: Tree, g: State, from: Node, e: Effect, k: Key, y: Node)
    requires Sound(t, g) && from in Lookup(g.petitions, OwnKey(from)).dgs
    requires e.state.me == g.me && e.state.declared == RemoveFirst(g.declared, from)
    requires forall k :: k in g.subscribed && k != OwnKey(from) ==> k in e.state.subscribed
    requires var p := Lookup(g.petitions, k);
      Lookup(e.state.petitions, k)
        == Abandoned(g, from, if k == OwnKey(from) then p.(dgs := RemoveFirst(p.dgs, from)) else p)
    requires y != from ==> TellsAt(g, e, y, k)
    ensures CancelledAt(g, from, OwnKey(from), true, e, k, y)
  {
    assert KeyOk(t, g, k); OwnDmsHolds(t, g);
    var p := Lookup(g.petitions, k);
    RemoveFirstNoRepeats(g.declared, from);
    RemoveFirstNoRepeats(p.dgs, from);
    if k == OwnKey(from) {
      OnlyAsker(t, g, from);
      AbandonedFacts(g, from, p.(dgs := []));
    } else {
      AbandonedFacts(g, from, p);
    }
  }

  lemma OnlyAsker(t: Tree, g: State, from: Node)
    requires Sound(t, g) && from in Lookup(g.petitions, OwnKey(from)).dgs
    ensures RemoveFirst(Lookup(g.petitions, OwnKey(from)).dgs, from) == []
  {
    assert KeyOk(t, g, OwnKey(from));
    SoleMember(Lookup(g.petitions, OwnKey(from)).dgs, from);
  }

  lemma AbandonedFacts(g: State, from: Node, p: Petition)
    requires NoRepeats(p.dgs) && NoRepeats(p.sgs) && g.tree
    ensures var q := Abandoned(g, from, p);
      && NoRepeats(q.dgs) && NoRepeats(q.sgs) && q.key == p.key && q.dms == p.dms
      && (forall z :: z in q.dgs <==> z in p.dgs && z != from)
      && (forall z :: z in q.sgs ==> z in p.sgs && z != from)
      && ((q.dms == [] && q.dgs == []) || forall z :: z in p.sgs && z != from ==> z in q.sgs)
      && (p == Blank(p.key) ==> q == p)
  {
    RemoveFirstNoRepeats(p.dgs, from);
    RemoveFirstNoRepeats(p.sgs, from);
  }

  lemma CancellationKeys(g: State, from: Node, k: Key, k': Key)
    ensures Listed(HandleCancellation(g, from, k).state.petitions, k') ==> Listed(g.petitions, k')
  {
    CancellationSameKeys(g, from, k);
    SameKeys(g.petitions, HandleCancellation(g, from, k).state.petitions, k');
  }

  lemma CancellationSameKeys(g: State, from: Node, k: Key)
    ensures var ps := HandleCancellation(g, from, k).state.petitions;
      |ps| == |g.petitions| && forall i :: 0 <= i < |ps| ==> ps[i].key == g.petitions[i].key
  {
    var g1 := Withdraw(g, from, k);
    WithdrawSameKeys(g, from, k);
    if k.subject == Pseudo(from) {
      RetractSameKeys(g1, from);
    } else {
      var i := Find(g.petitions, k);
      if i < |g1.petitions| { CancelSameKeys(g1, i); }
    }
  }

  lemma CancelSameKeys(g: State, i: nat)
    requires i < |g.petitions|
    ensures var ps := CancelAt(g, i, g.petitions[i]).state.petitions;
      |ps| == |g.petitions| && forall j :: 0 <= j < |ps| ==> ps[j].key == g.petitions[j].key
  {
    assert CancelIfIdle(g, g.petitions[i]).0.key == g.petitions[i].key;
  }

  lemma WithdrawSameKeys(g: State, from: Node, k: Key)
    ensures var ps := Withdraw(g, from, k).petitions;
      |ps| == |g.petitions| && forall i :: 0 <= i < |ps| ==> ps[i].key == g.petitions[i].key
  {
  }

  lemma RetractSameKeys(g: State, from: Node)
    ensures var ps := Walk(g.petitions, RetractRule(g, from)).0;
      |ps| == |g.petitions| && forall i :: 0 <= i < |ps| ==> ps[i].key == g.petitions[i].key
  {
    var w := Walk(g.petitions, RetractRule(g, from)).0;
    forall i | 0 <= i < |w| ensures w[i].key == g.petitions[i].key {
      assert w[i] == RetractRule(g, from)(g.petitions[i]).0;
    }
  }

  lemma HandleCancellationCancels(t: Tree, g: State, from: Node, k: Key)
    requires Sound(t, g) && from in Lookup(g.petitions, k).dgs && Proper(t, k)
    ensures Cancelled(g, from, k, k == OwnKey(from), HandleCancellation(g, from, k))
  {
    var e := HandleCancellation(g, from, k);
    forall k' | Listed(e.state.petitions, k') ensures Listed(g.petitions, k') {
      CancellationKeys(g, from, k, k');
    }
    if k == OwnKey(from) {
      RetractionFrame(t, g, from);
      RemoveFirstNoRepeats(g.declared, from);
      forall k', y ensures CancelledAt(g, from, k, true, e, k', y) {
        WithdrawEffect(g, from, k, k');
        assert NoRepeats(Lookup(g.petitions, k').sgs) by { assert KeyOk(t, g, k'); }
        RetractionEffect(g, from, if y == from then from + 1 else y, k');
        RetractionAt(t, g, from, e, k', y);
      }
    } else {
      forall k', y ensures CancelledAt(g, from, k, false, e, k', y) { CancellationAt(t, g, from, k, k', y); }
      CancellationAt(t, g, from, k, k, from);
    }
  }

  lemma CancellationOutcome(t: Tree, g: State, from: Node, k: Key, all: bool, e: Effect)
    requires Sound(t, g) && Cancelled(g, from, k, all, e) && k != OwnKey(g.me)
    ensures GoodStep(t, g, e, if all then Some(from) else None)
    ensures forall y: Node, r :: (y != from || !all) && r in To(e.sends, y) ==> y in g.declared
  {
    forall k' ensures ShrinksAt(g, e.state, k') { assert CancelledAt(g, from, k, all, e, k', from); }
    forall y: Node, k' | y != from || !all ensures TellsAt(g, e, y, k') { assert CancelledAt(g, from, k, all, e, k', y); }
    CancelledOwn(t, g, from, k, all, e);
    ShrinkSteps(t, g, e, if all then Some(from) else None);
  }

  /** One's own declaration is cancelled with nobody, and no neighbour is new. */
  lemma CancelledOwn(t: Tree, g: State, from: Node, k: Key, all: bool, e: Effect)
    requires Sound(t, g) && Cancelled(g, from, k, all, e) && k != OwnKey(g.me)
    requires forall k' :: ShrinksAt(g, e.state, k')
    ensures Shrinks(g, e.state)
    ensures forall y: Node ::
      ((y != from || !all) && y in Lookup(g.petitions, OwnKey(g.me)).sgs ==>
       y in Lookup(e.state.petitions, OwnKey(g.me)).sgs)
  {
    OwnDmsHolds(t, g);
    assert ShrinksAt(g, e.state, OwnKey(g.me));
    assert CancelledAt(g, from, k, all, e, k, from);
    forall y | y in e.state.declared ensures y in g.declared { assert CancelledAt(g, from, k, all, e, k, y); }
    forall y: Node | (y != from || !all) && y in Lookup(g.petitions, OwnKey(g.me)).sgs
      ensures y in Lookup(e.state.petitions, OwnKey(g.me)).sgs {
      assert CancelledAt(g, from, k, all, e, OwnKey(g.me), y);
    }
  }

  /** Everything a sound gateway guarantees about an expected cancellation. */
  lemma CancellationKeeps(t: Tree, g: State, from: Node, k: Key)
    requires Sound(t, g) && from in Lookup(g.petitions, k).dgs && Proper(t, k)
    ensures var e, all := HandleCancellation(g, from, k), k == OwnKey(from);
      && Cancelled(g, from, k, all, e)
      && GoodStep(t, g, e, if all then Some(from) else None)
      && Sendable(g.declared, e.sends)
  {
    HandleCancellationCancels(t, g, from, k);
    OwnDmsHolds(t, g);
    var e := HandleCancellation(g, from, k);
    CancellationOutcome(t, g, from, k, k == OwnKey(from), e);
    assert from in g.declared by { assert KeyOk(t, g, k); }
    forall s | s in e.sends ensures s.dest in g.declared { SentIsTo(e.sends, s); }
  }

  // ---- Local subscribers --------------------------------------------------------------------

  lemma RemovalAt(t: Tree, g: State, m: ModuleId, k: Key, k': Key, y: Node)
    requires Sound(t, g) && k.subject >= 0
    ensures var e := RemovePetitioner(g, m, k);
      && UniqueKeys(e.state.petitions) && e.state == g.(petitions := e.state.petitions)
      && ShrinksAt(g, e.state, k') && TellsAt(g, e, y, k')
      && Lookup(e.state.petitions, k').dgs == Lookup(g.petitions, k').dgs
      && (k' != k ==> Lookup(e.state.petitions, k') == Lookup(g.petitions, k'))
  {
    assert KeyOk(t, g, k); assert KeyOk(t, g, k');
    RemoveEffect(g, m, k, y, k');
  }

  ghost predicate SameDgs(g: State, g': State) {
    g'.declared == g.declared && forall k :: Lookup(g'.petitions, k).dgs == Lookup(g.petitions, k).dgs
  }

  lemma RemovalOutcome(t: Tree, g: State, k: Key, e: Effect)
    requires Sound(t, g) && Shrinks(g, e.state) && k.subject >= 0
    requires forall k', y: Node :: TellsAt(g, e, y, k')
    requires Lookup(e.state.petitions, OwnKey(g.me)) == Lookup(g.petitions, OwnKey(g.me))
    ensures GoodStep(t, g, e, None) && Sendable(g.declared, e.sends)
  {
    ShrinkSteps(t, g, e, None);
    forall s | s in e.sends ensures s.dest in g.declared { SentIsTo(e.sends, s); }
  }

  lemma RemovalKeeps(t: Tree, g: State, m: ModuleId, k: Key)
    requires Sound(t, g) && k.subject >= 0
    ensures var e := RemovePetitioner(g, m, k);
      GoodStep(t, g, e, None) && Sendable(g.declared, e.sends) && SameDgs(g, e.state)
  {
    var e := RemovePetitioner(g, m, k);
    forall k', y: Node ensures TellsAt(g, e, y, k') { RemovalAt(t, g, m, k, k', y); }
    forall k' ensures ShrinksAt(g, e.state, k') && Lookup(e.state.petitions, k').dgs == Lookup(g.petitions, k').dgs {
      RemovalAt(t, g, m, k, k', g.me);
    }
    forall k' | Listed(e.state.petitions, k') ensures Listed(g.petitions, k') {
      SameKeys(g.petitions, e.state.petitions, k');
    }
    RemovalAt(t, g, m, k, OwnKey(g.me), g.me);
    RemovalOutcome(t, g, k, e);
  }

  /** e is the outcome of asserting k for a new local subscriber, as seen
      from petition k' and neighbour y. */
  ghost predicate AddedAt(g: State, k: Key, e: Effect, k': Key, y: Node) {
    var p, p2 := Lookup(g.petitions, k'), Lookup(e.state.petitions, k');
    && p2.dgs == p.dgs && (NoRepeats(p.sgs) ==> NoRepeats(p2.sgs))
    && (k' != k ==> p2 == p)
    && (k' == k ==> p2.dms != [] && (y in p2.sgs <==> y in p.sgs || y in Domain(g, p)))
    && About(To(e.sends, y), k') == if y in p2.sgs && y !in p.sgs then [Assertion(k')] else []
  }

  lemma AdditionAt(t: Tree, g: State, m: ModuleId, k: Key, k': Key, y: Node)
    requires Sound(t, g) && k.subject >= 0 && m !in Lookup(g.petitions, k).dms
    ensures var e := AddPetitioner(g, m, k);
      && UniqueKeys(e.state.petitions) && e.state == g.(petitions := e.state.petitions)
      && AddedAt(g, k, e, k', y)
      && (Listed(e.state.petitions, k') ==> Listed(g.petitions, k') || k' == k)
  {
    assert KeyOk(t, g, k');
    var g1 := Admit(g, m, k);
    AddEffect(g, m, k, y, k');
    AdmitConduit(g, m, k, k.cont);
    AdmitKeys(g, m, k, k');
  }

  lemma AdmitKeys(g: State, m: ModuleId, k: Key, k': Key)
    requires m !in Lookup(g.petitions, k).dms
    ensures Listed(AddPetitioner(g, m, k).state.petitions, k') ==> Listed(g.petitions, k') || k' == k
  {
    var i, ps := Find(g.petitions, k), AddPetitioner(g, m, k).state.petitions;
    var j := Find(ps, k');
    if j < |g.petitions| { assert j != i ==> g.petitions[j].key == k'; }
  }

  lemma {:induction false} ConduitAppendBlank(ps: seq<Petition>, p: Petition, c: int)
    requires p.dgs == []
    ensures Conduit(ps + [p], c) == Conduit(ps, c)
  {
    if ps != [] { assert (ps + [p])[1..] == ps[1..] + [p]; ConduitAppendBlank(ps[1..], p, c); }
  }

  lemma AdmitConduit(g: State, m: ModuleId, k: Key, c: int)
    ensures Conduit(Admit(g, m, k).petitions, c) == Conduit(g.petitions, c)
  {
    var i, p := Find(g.petitions, k), Lookup(g.petitions, k);
    if i < |g.petitions| { ConduitSame(g.petitions, g.petitions[i := p.(dms := p.dms + [m])], c); }
    else { ConduitAppendBlank(g.petitions, p.(dms := p.dms + [m]), c); }
  }

  lemma AdditionOutcome(t: Tree, g: State, k: Key, e: Effect)
    requires Sound(t, g) && k.subject >= 0
    requires UniqueKeys(e.state.petitions) && e.state == g.(petitions := e.state.petitions)
    requires forall k', y :: AddedAt(g, k, e, k', y)
    requires forall k' :: Listed(e.state.petitions, k') ==> Listed(g.petitions, k') || k' == k
    ensures GoodStep(t, g, e, None) && Sendable(g.declared, e.sends) && SameDgs(g, e.state)
  {
    forall k' ensures Lookup(e.state.petitions, k').dgs == Lookup(g.petitions, k').dgs { assert AddedAt(g, k, e, k', g.me); }
    forall k' ensures KeyOk(t, e.state, k') { AdditionPetition(t, g, k, e, k'); }
    forall y: Node, k' ensures Disciplined(g, e, y, k') { assert AddedAt(g, k, e, k', y); }
    forall y: Node, r | r in To(e.sends, y) ensures SendOk(t, g, y, r) && y in g.declared {
      AboutHas(To(e.sends, y), r);
      assert AddedAt(g, k, e, r.key, y);
      DomainOk(t, g, Lookup(g.petitions, k), y);
    }
    forall s | s in e.sends ensures s.dest in g.declared { SentIsTo(e.sends, s); }
  }

  lemma AdditionPetition(t: Tree, g: State, k: Key, e: Effect, k': Key)
    requires Sound(t, g) && k.subject >= 0 && SameDgs(g, e.state)
    requires UniqueKeys(e.state.petitions) && e.state == g.(petitions := e.state.petitions)
    requires forall k', y :: AddedAt(g, k, e, k', y)
    ensures KeyOk(t, e.state, k')
  {
    assert KeyOk(t, g, k');
    assert AddedAt(g, k, e, k', g.me);
    var p, p2 := Lookup(g.petitions, k'), Lookup(e.state.petitions, k');
    forall y | y in p2.sgs && y !in p.sgs ensures Adj(t, g.me, y) && y in g.declared {
      assert AddedAt(g, k, e, k', y);
      DomainOk(t, g, p, y);
    }
    assert Domain(e.state, p2) == Domain(g, p) by { SameDomain(t, g, k, e, p, p2); }
    forall y | y in Domain(e.state, p2) && (p2.dms != [] || exists z :: z in p2.dgs && z != y) ensures y in p2.sgs {
      assert AddedAt(g, k, e, k', y);
    }
  }

  lemma SameDomain(t: Tree, g: State, k: Key, e: Effect, p: Petition, p2: Petition)
    requires Sound(t, g) && k.subject >= 0 && SameDgs(g, e.state) && p.key == p2.key
    requires UniqueKeys(e.state.petitions) && e.state == g.(petitions := e.state.petitions)
    requires forall k', y :: AddedAt(g, k, e, k', y)
    ensures Domain(e.state, p2) == Domain(g, p)
  {
    if p.key.cont != 0 {
      ProperLookups(t, g);
      forall k' ensures Lookup(e.state.petitions, k') == Blank(k') || Proper(t, k') { assert AddedAt(g, k, e, k', g.me); }
      ConduitIsHop(t, g.petitions, p.key.cont); ConduitIsHop(t, e.state.petitions, p.key.cont);
    }
  }

  lemma AdditionKeeps(t: Tree, g: State, m: ModuleId, k: Key)
    requires Sound(t, g) && k.subject >= 0
    ensures var e := AddPetitioner(g, m, k);
      GoodStep(t, g, e, None) && Sendable(g.declared, e.sends) && SameDgs(g, e.state)
  {
    var e := AddPetitioner(g, m, k);
    if m in Lookup(g.petitions, k).dms {
      assert e == Effect(g, []);
    } else {
      forall k', y ensures AddedAt(g, k, e, k', y) { AdditionAt(t, g, m, k, k', y); }
      forall k' | Listed(e.state.petitions, k') ensures Listed(g.petitions, k') || k' == k {
        AdditionAt(t, g, m, k, k', g.me);
      }
      AdditionAt(t, g, m, k, k, g.me);
      AdditionOutcome(t, g, k, e);
    }
  }

  // ---- Termination ----------------------------------------------------------------------------

  lemma {:induction false} FarewellFacts(nodes: seq<Node>, sgs: seq<Node>)
    requires NoRepeats(nodes) && NoRepeats(sgs)
    ensures var f := Farewell(nodes, sgs);
      && NoRepeats(f.0) && NoRepeats(f.1)
      && (forall y :: y in f.0 <==> y in nodes && y in sgs)
      && (forall y :: y in f.1 <==> y in sgs && y !in nodes)
  {
    if nodes != [] {
      var init, y := nodes[..|nodes|-1], nodes[|nodes|-1];
      FarewellFacts(init, sgs);
      RemoveFirstNoRepeats(Farewell(init, sgs).1, y);
    }
  }

  /** A terminating gateway takes back its declaration and says nothing else. */
  lemma TerminationEffect(t: Tree, g: State, y: Node, k: Key)
    requires Sound(t, g)
    ensures var e := Terminate(g);
      && Disciplined(g, e, y, k) && e.state == g.(petitions := e.state.petitions)
      && (To(e.sends, y) == [] || To(e.sends, y) == [Cancellation(OwnKey(g.me))])
      && Lookup(e.state.petitions, k).dgs == Lookup(g.petitions, k).dgs
  {
    var own := OwnKey(g.me);
    OwnDmsHolds(t, g);
    assert KeyOk(t, g, own);
    var i := FindSubject(g.petitions, Pseudo(g.me));
    LookedIsListed(g.petitions, own);
    assert i < |g.petitions|;
    var p := g.petitions[i];
    LookupAt(g.petitions, i);
    assert Listed(g.petitions, p.key);
    var f := Farewell(g.declared, p.sgs);
    FarewellFacts(g.declared, p.sgs);
    SendAllTo(f.0, Cancellation(own), y);
    LookupUpdate(g.petitions, i, p.(sgs := f.1), k);
    var e := Terminate(g);
    AllAbout(e.sends, y, own, k);
  }
}
