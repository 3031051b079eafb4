/** What each petition handler does to one petition and one neighbour.

    The handlers walk lists; these lemmas say, for any petition k and any
    neighbour y, how k changes and which RPDUs about k go to y. */
module Effects {
  import opened Lists
  import opened Topology
  import opened Petitions

  lemma {:induction false} ConduitSame(a: seq<Petition>, b: seq<Petition>, c: int)
    requires SameAskers(a, b)
    ensures Conduit(a, c) == Conduit(b, c)
  {
    if a != [] { ConduitSame(a[1..], b[1..], c); }
  }

  lemma AssertionSetNoRepeats(g: State, p: Petition)
    requires NoRepeats(g.declared)
    ensures NoRepeats(AssertionSet(g, p))
  {
    var s := Domain(g, p);
    WithoutNoRepeats(s, p.sgs);
    WithoutNoRepeats(Without(s, p.sgs), p.dgs);
  }

  /** The neighbours to which an assertion of k by `from` makes us assert p. */
  function Added(g: State, from: Node, k: Key, p: Petition): seq<Node> {
    if !Assertable(g, p) then []
    else if p.key == k then AssertionSet(g, p)
    else if k.subject < 0 && from in AssertionSet(g, p) then [from]
    else []
  }

  lemma EnrolEffect(g: State, from: Node, k: Key, k': Key)
    requires UniqueKeys(g.petitions)
    ensures var g1, p := Enrol(g, from, k), Lookup(g.petitions, k');
      && UniqueKeys(g1.petitions)
      && Lookup(g1.petitions, k') == if k' == k then p.(dgs := p.dgs + [from]) else p
  {
    var i, p := Find(g.petitions, k), Lookup(g.petitions, k);
    var p' := p.(dgs := p.dgs + [from]);
    if i < |g.petitions| { LookupUpdate(g.petitions, i, p', k'); }
    else { LookupAppend(g.petitions, p', k'); }
  }

  /** Same petitions and same askers; DMSs and SGSs may differ. */
  ghost predicate SameAskers(a: seq<Petition>, b: seq<Petition>) {
    |a| == |b| && forall i :: 0 <= i < |a| ==> a[i].key == b[i].key && a[i].dgs == b[i].dgs
  }

  lemma PassAllKeepsAskers(g: State, from: Node, k: Key)
    ensures SameAskers(g.petitions, PassAll(g, from, k).state.petitions)
    ensures k.subject < 0 ==> PassAll(g, from, k).state.petitions == Walk(g.petitions, PassOnRule(g, from, k)).0
  {
    var rule, w := PassOnRule(g, from, k), Walk(g.petitions, PassOnRule(g, from, k)).0;
    forall i | 0 <= i < |w| ensures w[i].key == g.petitions[i].key && w[i].dgs == g.petitions[i].dgs {
      assert w[i] == rule(g.petitions[i]).0;
    }
  }

  lemma AssertAtKeepsAskers(g: State, i: nat)
    requires i < |g.petitions|
    ensures SameAskers(g.petitions, AssertAt(g, i).state.petitions)
  {
  }

  /** Once the asserting node has joined its DGS, only SGSs change. */
  lemma AssertionKeepsAskers(g: State, from: Node, k: Key)
    ensures SameAskers(Enrol(g, from, k).petitions, HandleAssertion(g, from, k).state.petitions)
  {
    PassAllKeepsAskers(Enrol(g, from, k), from, k);
    AssertAtKeepsAskers(PassAll(Enrol(g, from, k), from, k).state, Find(g.petitions, k));
  }

  lemma PassOnRuleFits(g: State, from: Node, k: Key)
    ensures PerPetition(PassOnRule(g, from, k))
  {
  }

  lemma PassOnWalk(g: State, from: Node, k: Key)
    requires k.subject < 0
    ensures var w := Walk(g.petitions, PassOnRule(g, from, k)).0;
      forall p :: AssertionSet(g.(petitions := w), p) == AssertionSet(g, p)
  {
    PassAllKeepsAskers(g, from, k);
    var w := Walk(g.petitions, PassOnRule(g, from, k)).0;
    forall p ensures AssertionSet(g.(petitions := w), p) == AssertionSet(g, p) {
      ConduitSame(g.petitions, w, p.key.cont);
    }
  }

  lemma AssertAtEffect(g: State, i: nat, y: Node, k: Key)
    requires UniqueKeys(g.petitions) && NoRepeats(g.declared) && i < |g.petitions|
    ensures var e, p := AssertAt(g, i), Lookup(g.petitions, k);
      var p2 := Lookup(e.state.petitions, k);
      var added := if k == g.petitions[i].key && Assertable(g, p) then AssertionSet(g, p) else [];
      && UniqueKeys(e.state.petitions) && e.state == g.(petitions := e.state.petitions)
      && p2 == p.(sgs := p2.sgs)
      && (k != g.petitions[i].key ==> p2 == p)
      && (y in p2.sgs <==> y in p.sgs || y in added)
      && (NoRepeats(p.sgs) ==> NoRepeats(p2.sgs))
      && About(To(e.sends, y), k) == if y in added then [Assertion(k)] else []
  {
    var p := g.petitions[i];
    var a, to := AssertPetition(g, p), AssertionSet(g, p);
    LookupAt(g.petitions, i);
    LookupUpdate(g.petitions, i, a.0, k);
    AllAbout(a.1, y, p.key, k);
    AssertionSetNoRepeats(g, p);
    SendAllTo(to, Assertion(p.key), y);
    if NoRepeats(p.sgs) { UnionNoRepeats(p.sgs, to); }
  }

  /** HandlePetitionAssertion, seen from petition k' and neighbour y. */
  lemma AssertionEffect(g: State, from: Node, k: Key, y: Node, k': Key)
    requires UniqueKeys(g.petitions) && NoRepeats(g.declared)
    ensures var g1, e := Enrol(g, from, k), HandleAssertion(g, from, k);
      var p1, p2 := Lookup(g1.petitions, k'), Lookup(e.state.petitions, k');
      var added := Added(g1, from, k, p1);
      && UniqueKeys(e.state.petitions) && e.state == g1.(petitions := e.state.petitions)
      && p2 == p1.(sgs := p2.sgs)
      && (y in p2.sgs <==> y in p1.sgs || y in added)
      && (NoRepeats(p1.sgs) ==> NoRepeats(p2.sgs))
      && About(To(e.sends, y), k') == if y in added then [Assertion(k')] else []
  {
    EnrolEffect(g, from, k, k');
    var g1, i := Enrol(g, from, k), Find(g.petitions, k);
    assert g1.petitions[i].key == k;
    if k.subject < 0 {
      PassedOnEffect(g1, from, k, i, y, k');
    } else {
      OnlyAsserted(g1, from, k, i, y, k', AssertAt(g1, i));
      assert HandleAssertion(g, from, k) == Effect(AssertAt(g1, i).state, [] + AssertAt(g1, i).sends);
    }
  }

  lemma OnlyAsserted(g: State, from: Node, k: Key, i: nat, y: Node, k': Key, e: Effect)
    requires UniqueKeys(g.petitions) && NoRepeats(g.declared) && k.subject >= 0
    requires i < |g.petitions| && g.petitions[i].key == k && e == AssertAt(g, i)
    ensures var p, p2 := Lookup(g.petitions, k'), Lookup(e.state.petitions, k');
      var added := Added(g, from, k, p);
      && UniqueKeys(e.state.petitions) && e.state == g.(petitions := e.state.petitions)
      && p2 == p.(sgs := p2.sgs)
      && (y in p2.sgs <==> y in p.sgs || y in added)
      && (NoRepeats(p.sgs) ==> NoRepeats(p2.sgs))
      && About(To([] + e.sends, y), k') == if y in added then [Assertion(k')] else []
  {
    AssertAtEffect(g, i, y, k');
    assert [] + e.sends == e.sends;
  }

  lemma PassedOnEffect(g: State, from: Node, k: Key, i: nat, y: Node, k': Key)
    requires UniqueKeys(g.petitions) && NoRepeats(g.declared) && k.subject < 0
    requires i < |g.petitions| && g.petitions[i].key == k
    ensures var w := Walk(g.petitions, PassOnRule(g, from, k));
      var e, p := AssertAt(g.(petitions := w.0), i), Lookup(g.petitions, k');
      var p2, added := Lookup(e.state.petitions, k'), Added(g, from, k, p);
      && UniqueKeys(e.state.petitions) && e.state == g.(petitions := e.state.petitions)
      && p2 == p.(sgs := p2.sgs)
      && (y in p2.sgs <==> y in p.sgs || y in added)
      && (NoRepeats(p.sgs) ==> NoRepeats(p2.sgs))
      && About(To(w.1 + e.sends, y), k') == if y in added then [Assertion(k')] else []
  {
    var rule := PassOnRule(g, from, k);
    var w := Walk(g.petitions, rule);
    PassOnWalk(g, from, k);
    PassOnRuleFits(g, from, k);
    WalkEffect(g.petitions, rule, y, k');
    assert w.0[i] == rule(g.petitions[i]).0 == g.petitions[i];
    var p := Lookup(g.petitions, k');
    assert rule(p) == PassOn(g, from, k, p);
    PassOnOne(g, from, k, y, p);
    JoinEffect(g, from, k, i, w.0, w.1, y, k');
  }

  /** Passing the other petitions on, then asserting the i-th one. */
  lemma JoinEffect(g: State, from: Node, k: Key, i: nat, ps: seq<Petition>, sent: seq<Send>, y: Node, k': Key)
    requires UniqueKeys(ps) && NoRepeats(g.declared) && i < |ps| && ps[i].key == k
    requires forall p :: AssertionSet(g.(petitions := ps), p) == AssertionSet(g, p)
    requires PassedAt(g, from, k, ps, sent, y, k')
    ensures var e, p := AssertAt(g.(petitions := ps), i), Lookup(g.petitions, k');
      var p2, added := Lookup(e.state.petitions, k'), Added(g, from, k, p);
      && UniqueKeys(e.state.petitions) && e.state == g.(petitions := e.state.petitions)
      && p2 == p.(sgs := p2.sgs)
      && (y in p2.sgs <==> y in p.sgs || y in added)
      && (NoRepeats(p.sgs) ==> NoRepeats(p2.sgs))
      && About(To(sent + e.sends, y), k') == if y in added then [Assertion(k')] else []
  {
    var g2 := g.(petitions := ps);
    AssertAtEffect(g2, i, y, k');
    SentAboutConcat(sent, AssertAt(g2, i).sends, y, k');
  }

  /** After the petitions other than k were passed on to `from`. */
  ghost predicate PassedAt(g: State, from: Node, k: Key, ps: seq<Petition>, sent: seq<Send>, y: Node, k': Key) {
    var p, q := Lookup(g.petitions, k'), Lookup(ps, k');
    var added := if k' == k then [] else Added(g, from, k, p);
    && q == p.(sgs := q.sgs)
    && (k' == k ==> q == p)
    && (y in q.sgs <==> y in p.sgs || y in added)
    && (NoRepeats(p.sgs) ==> NoRepeats(q.sgs))
    && About(To(sent, y), k') == if y in added then [Assertion(k')] else []
  }

  lemma PassOnOne(g: State, from: Node, k: Key, y: Node, p: Petition)
    requires k.subject < 0
    ensures var q, added := PassOn(g, from, k, p), if p.key == k then [] else Added(g, from, k, p);
      && q.0 == p.(sgs := q.0.sgs)
      && (y in q.0.sgs <==> y in p.sgs || y in added)
      && (NoRepeats(p.sgs) ==> NoRepeats(q.0.sgs))
      && To(q.1, y) == if y in added then [Assertion(p.key)] else []
  {
    var q := PassOn(g, from, k, p);
    if q.1 != [] {
      assert To(q.1[1..], y) == [];
      assert from !in p.sgs;
    }
  }

  lemma WithdrawEffect(g: State, from: Node, k: Key, k': Key)
    requires UniqueKeys(g.petitions)
    ensures var g1, p := Withdraw(g, from, k), Lookup(g.petitions, k');
      && UniqueKeys(g1.petitions)
      && Lookup(g1.petitions, k') == if k' == k then p.(dgs := RemoveFirst(p.dgs, from)) else p
  {
    var i, p := Find(g.petitions, k), Lookup(g.petitions, k);
    if i < |g.petitions| { LookupUpdate(g.petitions, i, p.(dgs := RemoveFirst(p.dgs, from)), k'); }
  }

  /** CancelPetition after the idle test, seen from neighbour y. */
  lemma CancelEffect(g: State, p: Petition, y: Node)
    requires g.tree && NoRepeats(p.sgs)
    ensures var c := CancelIfIdle(g, p);
      && c.0 == p.(sgs := if Assertable(g, p) then p.sgs else [])
      && (forall s :: s in c.1 ==> s.rpdu == Cancellation(p.key))
      && To(c.1, y) == if y in p.sgs && y !in c.0.sgs then [Cancellation(p.key)] else []
  {
    if !Assertable(g, p) { SendAllTo(p.sgs, Cancellation(p.key), y); }
  }

  /** HandlePetitionCancellation from a node that is not retracting itself. */
  lemma CancellationEffect(g: State, from: Node, k: Key, y: Node, k': Key)
    requires UniqueKeys(g.petitions) && g.tree && NoRepeats(Lookup(g.petitions, k).sgs)
    requires from in Lookup(g.petitions, k).dgs && k != OwnKey(from) && k.subject != Pseudo(from)
    ensures var e, p := HandleCancellation(g, from, k), Lookup(Withdraw(g, from, k).petitions, k');
      var p2 := Lookup(e.state.petitions, k');
      && UniqueKeys(e.state.petitions) && e.state == Withdraw(g, from, k).(petitions := e.state.petitions)
      && p2 == (if k' == k && !Assertable(g, p) then p.(sgs := []) else p)
      && About(To(e.sends, y), k') == if y in p.sgs && y !in p2.sgs then [Cancellation(k')] else []
  {
    WithdrawEffect(g, from, k, k); WithdrawEffect(g, from, k, k');
    var i, g1 := Find(g.petitions, k), Withdraw(g, from, k);
    LookupAt(g1.petitions, i);
    var p := g1.petitions[i];
    CancelEffect(g1, p, y);
    var c := CancelIfIdle(g1, p);
    LookupUpdate(g1.petitions, i, c.0, k');
    AllAbout(c.1, y, k, k');
  }

  /** What is left of a petition once a neighbour has retracted itself. */
  function Abandoned(g: State, from: Node, p: Petition): Petition {
    var q := p.(sgs := RemoveFirst(p.sgs, from), dgs := RemoveFirst(p.dgs, from));
    if Assertable(g, q) then q else q.(sgs := [])
  }

  lemma RetractKeeps(g: State, from: Node, p: Petition)
    ensures Retract(g, from, p).0.key == p.key
    ensures forall s :: s in Retract(g, from, p).1 ==> s.rpdu.key == p.key
    ensures p == Blank(p.key) ==> Retract(g, from, p) == (p, [])
  {
    var q := p.(sgs := RemoveFirst(p.sgs, from), dgs := RemoveFirst(p.dgs, from));
    var reply := if from in p.sgs || from in p.dgs then [Send(from, Cancellation(p.key))] else [];
    var c := CancelIfIdle(g, q).1;
    assert Retract(g, from, p).1 == reply + c;
    assert forall s :: s in c ==> s.rpdu.key == p.key;
    if p == Blank(p.key) { assert q == p && c == []; }
  }

  lemma RetractRuleFits(g: State, from: Node)
    ensures PerPetition(RetractRule(g, from))
  {
    var f := RetractRule(g, from);
    forall p ensures f(p).0.key == p.key { RetractKeeps(g, from, p); }
    forall p, s | s in f(p).1 ensures s.rpdu.key == p.key { RetractKeeps(g, from, p); }
    forall k ensures f(Blank(k)) == (Blank(k), []) { RetractKeeps(g, from, Blank(k)); }
  }

  /** HandlePetitionCancellation from a neighbour that retracts itself. */
  lemma RetractionEffect(g: State, from: Node, y: Node, k: Key)
    requires UniqueKeys(g.petitions) && g.tree && NoRepeats(Lookup(g.petitions, k).sgs)
    requires from in Lookup(g.petitions, OwnKey(from)).dgs && y != from
    ensures var e, p := HandleCancellation(g, from, OwnKey(from)), Lookup(Withdraw(g, from, OwnKey(from)).petitions, k);
      var p2 := Lookup(e.state.petitions, k);
      && UniqueKeys(e.state.petitions)
      && e.state == Withdraw(g, from, OwnKey(from)).(petitions := e.state.petitions, declared := RemoveFirst(g.declared, from))
      && p2 == Abandoned(g, from, p)
      && About(To(e.sends, y), k) == if y in p.sgs && y !in p2.sgs then [Cancellation(k)] else []
  {
    var own := OwnKey(from);
    WithdrawEffect(g, from, own, own); WithdrawEffect(g, from, own, k);
    RetractionIs(g, from);
    var g1 := Withdraw(g, from, own);
    RetractWalk(g1, from, y, k);
    var p := Lookup(g1.petitions, k);
    assert Abandoned(g1, from, p) == Abandoned(g, from, p);
  }

  lemma RetractWalk(g: State, from: Node, y: Node, k: Key)
    requires UniqueKeys(g.petitions) && g.tree && NoRepeats(Lookup(g.petitions, k).sgs) && y != from
    ensures var w, p := Walk(g.petitions, RetractRule(g, from)), Lookup(g.petitions, k);
      && UniqueKeys(w.0) && Lookup(w.0, k) == Abandoned(g, from, p)
      && About(To(w.1, y), k) == if y in p.sgs && y !in Lookup(w.0, k).sgs then [Cancellation(k)] else []
  {
    RetractRuleFits(g, from);
    WalkEffect(g.petitions, RetractRule(g, from), y, k);
    var p := Lookup(g.petitions, k);
    assert Retract(g, from, p) == RetractRule(g, from)(p);
    RetractOne(g, from, y, p);
  }

  lemma RetractionIs(g: State, from: Node)
    requires from in Lookup(g.petitions, OwnKey(from)).dgs
    ensures var g1 := Withdraw(g, from, OwnKey(from));
      var w := Walk(g1.petitions, RetractRule(g1, from));
      HandleCancellation(g, from, OwnKey(from))
        == Effect(g1.(petitions := w.0, declared := RemoveFirst(g.declared, from)), w.1)
  {
    var i := Find(g.petitions, OwnKey(from));
    assert from in g.petitions[i].dgs;
  }

  lemma RetractOne(g: State, from: Node, y: Node, p: Petition)
    requires g.tree && NoRepeats(p.sgs) && y != from
    ensures var r := Retract(g, from, p);
      && r.0 == Abandoned(g, from, p)
      && To(r.1, y) == if y in p.sgs && y !in r.0.sgs then [Cancellation(p.key)] else []
  {
    var q := p.(sgs := RemoveFirst(p.sgs, from), dgs := RemoveFirst(p.dgs, from));
    RemoveFirstNoRepeats(p.sgs, from);
    CancelEffect(g, q, y);
    var reply := if from in p.sgs || from in p.dgs then [Send(from, Cancellation(p.key))] else [];
    ToConcat(reply, CancelIfIdle(g, q).1, y);
  }

  /** AddPetitioner for a module not yet listed. */
  lemma AddEffect(g: State, m: ModuleId, k: Key, y: Node, k': Key)
    requires UniqueKeys(g.petitions) && NoRepeats(g.declared) && m !in Lookup(g.petitions, k).dms
    ensures var g1, e := Admit(g, m, k), AddPetitioner(g, m, k);
      var p, p1, p2 := Lookup(g.petitions, k'), Lookup(g1.petitions, k'), Lookup(e.state.petitions, k');
      var added := if k' == k then AssertionSet(g1, p1) else [];
      && UniqueKeys(g1.petitions) && UniqueKeys(e.state.petitions) && e.state == g1.(petitions := e.state.petitions)
      && p1 == (if k' == k then p.(dms := p.dms + [m]) else p)
      && p2 == p1.(sgs := p2.sgs) && (k' != k ==> p2 == p)
      && (y in p2.sgs <==> y in p1.sgs || y in added)
      && (NoRepeats(p1.sgs) ==> NoRepeats(p2.sgs))
      && About(To(e.sends, y), k') == if y in added then [Assertion(k')] else []
  {
    var i, p := Find(g.petitions, k), Lookup(g.petitions, k);
    var p' := p.(dms := p.dms + [m]);
    if i < |g.petitions| { LookupUpdate(g.petitions, i, p', k'); } else { LookupAppend(g.petitions, p', k'); }
    var g1 := Admit(g, m, k);
    assert g1.petitions[i] == p';
    AssertAtEffect(g1, i, y, k');
  }

  /** RemovePetitioner. */
  lemma RemoveEffect(g: State, m: ModuleId, k: Key, y: Node, k': Key)
    requires UniqueKeys(g.petitions) && g.tree && NoRepeats(Lookup(g.petitions, k).sgs)
    ensures var e, p := RemovePetitioner(g, m, k), Lookup(g.petitions, k');
      var p1, p2 := (if k' == k then p.(dms := RemoveFirst(p.dms, m)) else p), Lookup(e.state.petitions, k');
      && UniqueKeys(e.state.petitions) && e.state == g.(petitions := e.state.petitions)
      && p2 == (if k' == k && !Assertable(g, p1) then p1.(sgs := []) else p1)
      && About(To(e.sends, y), k') == if y in p.sgs && y !in p2.sgs then [Cancellation(k')] else []
  {
    var i := Find(g.petitions, k);
    if i < |g.petitions| {
      var p := g.petitions[i];
      var q := p.(dms := RemoveFirst(p.dms, m));
      CancelEffect(g, q, y);
      var c := CancelIfIdle(g, q);
      LookupUpdate(g.petitions, i, c.0, k');
      AllAbout(c.1, y, k, k');
    }
  }

  // ---- The same, for all petitions and neighbours at once ---------------------------

  /** g1 is g after `from` joined the DGS of k. */
  ghost predicate Enrols(g: State, from: Node, k: Key, g1: State) {
    && UniqueKeys(g1.petitions)
    && g1 == g.(petitions := g1.petitions, subscribed := g1.subscribed)
    && g.subscribed <= g1.subscribed
    && (|Lookup(g1.petitions, k).dgs| == 1 && (k.cont == 0 || k.cont == g.me) ==> k in g1.subscribed)
    && (forall k' :: Listed(g1.petitions, k') ==> Listed(g.petitions, k') || k' == k)
    && forall k' :: Lookup(g1.petitions, k')
         == var p := Lookup(g.petitions, k'); if k' == k then p.(dgs := p.dgs + [from]) else p
  }

  ghost predicate AssertsOne(g1: State, from: Node, k: Key, e: Effect, k': Key, y: Node) {
    var p1, p2 := Lookup(g1.petitions, k'), Lookup(e.state.petitions, k');
    var added := Added(g1, from, k, p1);
    && p2 == p1.(sgs := p2.sgs)
    && (y in p2.sgs <==> y in p1.sgs || y in added)
    && (NoRepeats(p1.sgs) ==> NoRepeats(p2.sgs))
    && About(To(e.sends, y), k') == if y in added then [Assertion(k')] else []
  }

  /** e asserts petitions as HandlePetitionAssertion does once g1 is reached. */
  ghost predicate Asserts(g1: State, from: Node, k: Key, e: Effect) {
    && UniqueKeys(e.state.petitions) && e.state == g1.(petitions := e.state.petitions)
    && (forall c :: Conduit(e.state.petitions, c) == Conduit(g1.petitions, c))
    && (forall k' :: Listed(e.state.petitions, k') ==> Listed(g1.petitions, k'))
    && forall k', y :: AssertsOne(g1, from, k, e, k', y)
  }

  lemma EnrolEnrols(g: State, from: Node, k: Key)
    requires UniqueKeys(g.petitions)
    ensures Enrols(g, from, k, Enrol(g, from, k))
  {
    var g1 := Enrol(g, from, k);
    forall k' ensures Lookup(g1.petitions, k')
         == var p := Lookup(g.petitions, k'); if k' == k then p.(dgs := p.dgs + [from]) else p {
      EnrolEffect(g, from, k, k');
    }
    EnrolEffect(g, from, k, k);
    forall k' | Listed(g1.petitions, k') ensures Listed(g.petitions, k') || k' == k {
      var i := Find(g1.petitions, k');
      if i < |g.petitions| { assert g.petitions[i].key == k'; }
    }
  }

  lemma ListedAfterAssertion(g: State, from: Node, k: Key, k': Key)
    ensures Listed(HandleAssertion(g, from, k).state.petitions, k') ==> Listed(Enrol(g, from, k).petitions, k')
  {
    AssertionKeepsAskers(g, from, k);
    SameKeys(Enrol(g, from, k).petitions, HandleAssertion(g, from, k).state.petitions, k');
  }

  lemma ConduitAfterAssertion(g: State, from: Node, k: Key, c: int)
    ensures Conduit(HandleAssertion(g, from, k).state.petitions, c) == Conduit(Enrol(g, from, k).petitions, c)
  {
    AssertionKeepsAskers(g, from, k);
    ConduitSame(Enrol(g, from, k).petitions, HandleAssertion(g, from, k).state.petitions, c);
  }

  lemma HandleAssertionAsserts(g: State, from: Node, k: Key)
    requires UniqueKeys(g.petitions) && NoRepeats(g.declared)
    ensures Asserts(Enrol(g, from, k), from, k, HandleAssertion(g, from, k))
  {
    var g1, e := Enrol(g, from, k), HandleAssertion(g, from, k);
    forall k' | Listed(e.state.petitions, k') ensures Listed(g1.petitions, k') { ListedAfterAssertion(g, from, k, k'); }
    forall c ensures Conduit(e.state.petitions, c) == Conduit(g1.petitions, c) { ConduitAfterAssertion(g, from, k, c); }
    forall k', y ensures AssertsOne(g1, from, k, e, k', y) { AssertionEffect(g, from, k, y, k'); }
    AssertionEffect(g, from, k, from, k);
  }

  lemma {:induction false} SentIsTo(sends: seq<Send>, s: Send)
    requires s in sends
    ensures s.rpdu in To(sends, s.dest)
  {
    if sends[0] != s { SentIsTo(sends[1..], s); }
  }
}
