/** The invariant of one gateway in a tree network, and why every handler
    keeps it. */
module Soundness {
  import opened Lists
  import opened Topology
  import opened Petitions
  import opened Effects

  /** Pseudo-subjects occur only in the declarations of gateways of the tree. */
  predicate Proper(t: Tree, k: Key) {
    k.subject < 0 ==> var c: Node := -k.subject; c in Nodes(t) && k == OwnKey(c)
  }

  /** Every neighbour in the domain of p is asked, unless it is the only one interested. */
  ghost predicate Complete(g: State, p: Petition) {
    forall y :: y in Domain(g, p) && (p.dms != [] || exists z :: z in p.dgs && z != y) ==> y in p.sgs
  }

  /** Who has asked for p: declared neighbours, once each; for a declaration,
      only the next hop towards the declared continuum. */
  ghost predicate AskedOk(t: Tree, g: State, p: Petition) {
    && NoRepeats(p.dgs)
    && (p == Blank(p.key) || Proper(t, p.key))
    && (forall y :: y in p.dgs ==> y in g.declared)
    && (p.key.subject < 0 ==> p.dms == if p.key == OwnKey(g.me) then [g.self] else [])
    && (forall c, y :: p.key == OwnKey(c) && y in p.dgs ==> c != g.me && Hop(t, g.me, c) == y)
    && (p.dgs != [] && (p.key.cont == 0 || p.key.cont == g.me) ==> p.key in g.subscribed)
  }

  /** Whom we have asked for p: neighbours, once each, and declared ones
      except for our own declaration. */
  ghost predicate AskingOk(t: Tree, g: State, p: Petition) {
    && NoRepeats(p.sgs)
    && (forall y :: y in p.sgs ==> Adj(t, g.me, y) && (p.key == OwnKey(g.me) || y in g.declared))
  }

  ghost predicate PetitionOk(t: Tree, g: State, p: Petition) {
    AskedOk(t, g, p) && AskingOk(t, g, p) && Complete(g, p)
  }

  ghost predicate KeyOk(t: Tree, g: State, k: Key) {
    PetitionOk(t, g, Lookup(g.petitions, k))
  }

  ghost predicate Sound(t: Tree, g: State) {
    && Valid(t) && g.tree && g.me in Nodes(t)
    && UniqueKeys(g.petitions) && NoRepeats(g.declared)
    && (forall y :: y in g.declared ==> Adj(t, g.me, y))
    && OwnKey(g.me) in g.subscribed
    && (forall k :: Listed(g.petitions, k) ==> Proper(t, k))
    && (forall k :: KeyOk(t, g, k))
  }

  /** What g may send: each RPDU about k to y tells y that its place in our
      SGS has changed; declarations travel away from the declared continuum. */
  function Change(k: Key, was: bool, now: bool): seq<Rpdu> {
    if was == now then [] else if now then [Assertion(k)] else [Cancellation(k)]
  }

  ghost predicate Disciplined(g: State, e: Effect, y: Node, k: Key) {
    About(To(e.sends, y), k)
      == Change(k, y in Lookup(g.petitions, k).sgs, y in Lookup(e.state.petitions, k).sgs)
  }

  ghost predicate Outward(t: Tree, g: State, k: Key, y: Node) {
    && Proper(t, k) && Adj(t, g.me, y)
    && forall c :: k == OwnKey(c) ==> y != c && Hop(t, y, c) == g.me
  }

  // ---- Conduits -------------------------------------------------------------------

  lemma ListedIsLooked(ps: seq<Petition>, p: Petition)
    requires UniqueKeys(ps) && p in ps
    ensures Lookup(ps, p.key) == p
  {
    var i :| 0 <= i < |ps| && ps[i] == p;
    LookupAt(ps, i);
  }

  lemma LookedIsListed(ps: seq<Petition>, k: Key)
    requires Lookup(ps, k) != Blank(k)
    ensures Lookup(ps, k) in ps
  {
  }

  /** The conduit to c is the one neighbour that passed on c's declaration. */
  lemma ConduitIsHop(t: Tree, ps: seq<Petition>, c: Node)
    requires UniqueKeys(ps) && forall k :: Lookup(ps, k) == Blank(k) || Proper(t, k)
    ensures Conduit(ps, c) == var d := Lookup(ps, OwnKey(c)).dgs; if d == [] then None else Some(d[0])
  {
    var p := Lookup(ps, OwnKey(c));
    if p.dgs != [] { LookedIsListed(ps, OwnKey(c)); }
    forall q | q in ps && q.key.subject == Pseudo(c) && q.dgs != [] ensures q == p {
      ListedIsLooked(ps, q);
      assert Proper(t, q.key);
    }
  }

  // ---- Receiving an assertion --------------------------------------------------------

  /** The assertion of k by `from` is one that a well-behaved neighbour sends. */
  ghost predicate Expected(t: Tree, g: State, from: Node, k: Key) {
    && Adj(t, g.me, from) && Proper(t, k)
    && (forall c :: k == OwnKey(c) ==> c != g.me && Hop(t, g.me, c) == from)
    && from !in Lookup(g.petitions, k).dgs
    && (from in g.declared || k == OwnKey(from))
  }

  function Greet(g: State, from: Node, k: Key): State {
    if k.subject == Pseudo(from) then NoteDeclaration(g, from) else g
  }

  lemma ProperLookups(t: Tree, g: State)
    requires Sound(t, g)
    ensures forall k :: Lookup(g.petitions, k) == Blank(k) || Proper(t, k)
  {
    forall k ensures Lookup(g.petitions, k) == Blank(k) || Proper(t, k) {
      assert KeyOk(t, g, k);
    }
  }

  /** Enrolling a neighbour adds at most that neighbour to a domain. */
  lemma DomainGrows(t: Tree, g: State, from: Node, k: Key, g1: State, p: Petition, y: Node)
    requires Sound(t, g) && Expected(t, g, from, k) && Enrols(Greet(g, from, k), from, k, g1)
    requires y in Domain(g1, p)
    ensures y in Domain(g, p) || (y == from && k.subject < 0)
  {
    if p.key.cont != 0 {
      var c: Node := p.key.cont;
      ProperLookups(t, g);
      ConduitIsHop(t, g.petitions, c);
      forall k' ensures Lookup(g1.petitions, k') == Blank(k') || Proper(t, k') {}
      ConduitIsHop(t, g1.petitions, c);
      var d := Lookup(g.petitions, OwnKey(c)).dgs;
      assert KeyOk(t, g, OwnKey(c));
      assert d != [] ==> d[0] in d && Hop(t, g.me, c) == d[0];
    }
  }

  /** A neighbour that is due an assertion gets it. */
  lemma AddedEnough(g1: State, from: Node, k: Key, p: Petition, y: Node)
    requires g1.tree && y in Domain(g1, p) && y !in p.sgs
    requires p.dms != [] || exists z :: z in p.dgs && z != y
    requires p.key == k || (k.subject < 0 && y == from)
    ensures y in Added(g1, from, k, p)
  {
  }

  lemma AssertionCompletes(t: Tree, g: State, from: Node, k: Key, g1: State, e: Effect, k': Key)
    requires Sound(t, g) && Expected(t, g, from, k)
    requires Enrols(Greet(g, from, k), from, k, g1) && Asserts(g1, from, k, e)
    ensures Complete(e.state, Lookup(e.state.petitions, k'))
  {
    var p, p1, p2 := Lookup(g.petitions, k'), Lookup(g1.petitions, k'), Lookup(e.state.petitions, k');
    assert Complete(g, p) by { assert KeyOk(t, g, k'); }
    forall y | y in Domain(e.state, p2) && (p2.dms != [] || exists z :: z in p2.dgs && z != y) ensures y in p2.sgs {
      assert AssertsOne(g1, from, k, e, k', y);
      assert Domain(e.state, p2) == Domain(g1, p1);
      if y !in p1.sgs {
        DomainGrows(t, g, from, k, g1, p1, y);
        AddedEnough(g1, from, k, p1, y);
      }
    }
  }

  lemma EnrolKeepsAsked(t: Tree, g: State, from: Node, k: Key, g1: State, k': Key)
    requires Sound(t, g) && Expected(t, g, from, k) && Enrols(Greet(g, from, k), from, k, g1)
    ensures AskedOk(t, g1, Lookup(g1.petitions, k'))
  {
    assert KeyOk(t, g, k');
    var p, p1 := Lookup(g.petitions, k'), Lookup(g1.petitions, k');
    if k' == k && k.subject < 0 {
      var c: Node := -k.subject;
      assert k == OwnKey(c);
      assert c != g.me && Hop(t, g.me, c) == from;
      assert forall c' :: k == OwnKey(c') ==> c' == c;
      NoMembers(p.dgs);
    }
  }

  lemma AssertionKeepsAsking(t: Tree, g: State, from: Node, k: Key, g1: State, e: Effect, k': Key)
    requires Sound(t, g) && Expected(t, g, from, k)
    requires Enrols(Greet(g, from, k), from, k, g1) && Asserts(g1, from, k, e)
    ensures AskingOk(t, e.state, Lookup(e.state.petitions, k'))
  {
    var p, p1, p2 := Lookup(g.petitions, k'), Lookup(g1.petitions, k'), Lookup(e.state.petitions, k');
    assert AskingOk(t, g, p) by { assert KeyOk(t, g, k'); }
    assert NoRepeats(p2.sgs) by { assert AssertsOne(g1, from, k, e, k', from); }
    forall y | y in p2.sgs ensures Adj(t, g.me, y) && (k' == OwnKey(g.me) || y in e.state.declared) {
      assert AssertsOne(g1, from, k, e, k', y);
      if y !in p1.sgs { AddedInDomain(g1, from, k, p1, y); DomainDeclared(t, g, from, k, g1, p1, y); }
    }
  }

  lemma AssertionKeepsAsked(t: Tree, g: State, from: Node, k: Key, g1: State, e: Effect, k': Key)
    requires Sound(t, g) && Expected(t, g, from, k)
    requires Enrols(Greet(g, from, k), from, k, g1) && Asserts(g1, from, k, e)
    ensures AskedOk(t, e.state, Lookup(e.state.petitions, k'))
  {
    EnrolKeepsAsked(t, g, from, k, g1, k');
    var p1, p2 := Lookup(g1.petitions, k'), Lookup(e.state.petitions, k');
    var y := if p2.sgs == [] then from else p2.sgs[0];
    assert AssertsOne(g1, from, k, e, k', y);
    if y in Added(g1, from, k, p1) { AddedInDomain(g1, from, k, p1, y); }
    AskedSame(t, g1, e.state, p1, p2);
  }

  lemma AskedSame(t: Tree, g: State, g': State, p: Petition, p': Petition)
    requires AskedOk(t, g, p) && g' == g.(petitions := g'.petitions)
    requires p' == p.(sgs := p'.sgs) && (p == Blank(p.key) ==> p' == p)
    ensures AskedOk(t, g', p')
  {
  }

  lemma AssertionKeepsPetition(t: Tree, g: State, from: Node, k: Key, g1: State, e: Effect, k': Key)
    requires Sound(t, g) && Expected(t, g, from, k)
    requires Enrols(Greet(g, from, k), from, k, g1) && Asserts(g1, from, k, e)
    ensures KeyOk(t, e.state, k')
  {
    AssertionKeepsAsked(t, g, from, k, g1, e, k');
    AssertionKeepsAsking(t, g, from, k, g1, e, k');
    AssertionCompletes(t, g, from, k, g1, e, k');
  }

  lemma AddedInDomain(g1: State, from: Node, k: Key, p: Petition, y: Node)
    requires y in Added(g1, from, k, p)
    ensures y in Domain(g1, p) && y !in p.sgs && Assertable(g1, p)
    ensures p.dms != [] || |p.dgs| != 1 || y !in p.dgs
    ensures p.key == k || (k.subject < 0 && y == from)
  {
  }

  /** Domains lie within the declared neighbours. */
  lemma DomainDeclared(t: Tree, g: State, from: Node, k: Key, g1: State, p: Petition, y: Node)
    requires Sound(t, g) && Expected(t, g, from, k) && Enrols(Greet(g, from, k), from, k, g1)
    requires y in Domain(g1, p)
    ensures y in g1.declared && Adj(t, g.me, y)
  {
    DomainGrows(t, g, from, k, g1, p, y);
    DomainOk(t, g, p, y);
  }

  lemma DomainOk(t: Tree, g: State, p: Petition, y: Node)
    requires Sound(t, g)
    ensures y in Domain(g, p) ==> y in g.declared && Adj(t, g.me, y)
  {
    if p.key.cont != 0 {
      var c: Node := p.key.cont;
      ProperLookups(t, g);
      ConduitIsHop(t, g.petitions, c);
      assert KeyOk(t, g, OwnKey(c));
    }
  }

  // ---- What a handler guarantees -------------------------------------------------------

  /** What g may say to a neighbour y. */
  ghost predicate SendOk(t: Tree, g: State, y: Node, r: Rpdu) {
    && Proper(t, r.key)
    && (r.Assertion? ==> Outward(t, g, r.key, y))
    && (r.Cancellation? ==> r.key != OwnKey(g.me))
  }

  /** Handling an event took g to e.state, soundly; `who` is the neighbour
      that retracted itself, if any. */
  ghost predicate GoodStep(t: Tree, g: State, e: Effect, who: Option<Node>) {
    && Sound(t, e.state) && e.state.me == g.me && e.state.self == g.self
    && (forall y: Node, k :: Some(y) != who ==> Disciplined(g, e, y, k))
    && (forall y: Node, r :: Some(y) != who && r in To(e.sends, y) ==> SendOk(t, g, y, r))
  }

  /** Every RPDU goes to a declared neighbour, so no transmission fails. */
  ghost predicate Sendable(declared: seq<Node>, sends: seq<Send>) {
    forall s :: s in sends ==> s.dest in declared
  }

  lemma AssertionKeeps(t: Tree, g: State, from: Node, k: Key)
    requires Sound(t, g) && Expected(t, g, from, k)
    ensures var e := ReceiveAssertion(g, from, k);
      && GoodStep(t, g, e, None) && Sendable(e.state.declared, e.sends)
      && e.state.declared == Greet(g, from, k).declared
      && forall k', y :: (y in Lookup(e.state.petitions, k').dgs
           <==> y in Lookup(g.petitions, k').dgs || (y == from && k' == k))
  {
    var g0 := Greet(g, from, k);
    var g1, e := Enrol(g0, from, k), HandleAssertion(g0, from, k);
    assert e == ReceiveAssertion(g, from, k);
    EnrolEnrols(g0, from, k);
    HandleAssertionAsserts(g0, from, k);
    AssertionOutcome(t, g, from, k, g1, e);
  }

  lemma AssertionOutcome(t: Tree, g: State, from: Node, k: Key, g1: State, e: Effect)
    requires Sound(t, g) && Expected(t, g, from, k)
    requires Enrols(Greet(g, from, k), from, k, g1) && Asserts(g1, from, k, e)
    ensures GoodStep(t, g, e, None) && Sendable(e.state.declared, e.sends)
    ensures e.state.declared == Greet(g, from, k).declared
    ensures forall k', y :: (y in Lookup(e.state.petitions, k').dgs
      <==> y in Lookup(g.petitions, k').dgs || (y == from && k' == k))
  {
    forall k' ensures KeyOk(t, e.state, k') { AssertionKeepsPetition(t, g, from, k, g1, e, k'); }
    forall y: Node, k' ensures Disciplined(g, e, y, k') {
      assert AssertsOne(g1, from, k, e, k', y);
      if y in Added(g1, from, k, Lookup(g1.petitions, k')) { AddedInDomain(g1, from, k, Lookup(g1.petitions, k'), y); }
    }
    forall y: Node, r | r in To(e.sends, y) ensures SendOk(t, g, y, r) && y in e.state.declared {
      AboutHas(To(e.sends, y), r);
      assert AssertsOne(g1, from, k, e, r.key, y);
      AssertionSent(t, g, from, k, g1, r.key, y);
    }
    forall s | s in e.sends ensures s.dest in e.state.declared { SentIsTo(e.sends, s); }
    forall k', y ensures y in Lookup(e.state.petitions, k').dgs
      <==> y in Lookup(g.petitions, k').dgs || (y == from && k' == k) {
      assert AssertsOne(g1, from, k, e, k', y);
    }
  }

  /** A petition is asserted only to declared neighbours, a declaration only outwards. */
  lemma AssertionSent(t: Tree, g: State, from: Node, k: Key, g1: State, k': Key, y: Node)
    requires Sound(t, g) && Expected(t, g, from, k) && Enrols(Greet(g, from, k), from, k, g1)
    requires y in Added(g1, from, k, Lookup(g1.petitions, k'))
    ensures Outward(t, g, k', y) && y in g1.declared
  {
    var p := Lookup(g1.petitions, k');
    AddedInDomain(g1, from, k, p, y);
    DomainDeclared(t, g, from, k, g1, p, y);
    EnrolKeepsAsked(t, g, from, k, g1, k');
    OutwardFromAsked(t, g, g1, p, y);
  }

  /** A declaration that has come in from one neighbour goes out only to the others. */
  lemma OutwardFromAsked(t: Tree, g: State, g1: State, p: Petition, y: Node)
    requires Valid(t) && g1.me == g.me && g1.tree && AskedOk(t, g1, p) && Adj(t, g.me, y)
    requires Assertable(g1, p) && (p.dms != [] || |p.dgs| != 1 || y !in p.dgs)
    ensures Outward(t, g, p.key, y)
  {
    AdjFacts(t, g.me, y);
    forall c | p.key == OwnKey(c) ensures y != c && Hop(t, y, c) == g.me {
      LinkDirection(t, g.me, y, c);
      if c == g.me {
      } else {
        assert p.dms == [] && p.dgs != [];
        SoleMember(p.dgs, Hop(t, g.me, c));
      }
    }
  }
}
