/** Petition handling in a RAMS gateway, on values: what each handler of
    librams.c does to the gateway's petitions and which RPDUs it sends. */
module Petitions {
  import opened Lists
  import opened Topology

  datatype ModuleId = ModuleId(unitNbr: nat, nbr: nat)

  /** The pseudo-subject of a continuum. */
  function Pseudo(c: int): int { -c }

  /** Domain continuum, unit and role of a petition, and its subject.
      Subject -c is the pseudo-subject of continuum c. */
  datatype Key = Key(cont: nat, unit: nat, role: nat, subject: int)

  /** The petition by which the gateway of continuum c declares itself. */
  function OwnKey(c: Node): Key { Key(0, 0, 0, Pseudo(c)) }

  /** dms: local modules that want these messages; dgs: neighbours that asked
      us for them; sgs: neighbours we asked for them. */
  datatype Petition = Petition(key: Key, dms: seq<ModuleId>, dgs: seq<Node>, sgs: seq<Node>)

  function Blank(k: Key): Petition { Petition(k, [], [], []) }

  datatype Rpdu = Assertion(key: Key) | Cancellation(key: Key)
  datatype Send = Send(dest: Node, rpdu: Rpdu)

  /** A gateway: `tree` is its network type, `declared` its declared
      neighbours, `subscribed` the domains it subscribes to locally. */
  datatype State = State(
    me: Node, self: ModuleId, tree: bool, declared: seq<Node>,
    petitions: seq<Petition>, subscribed: set<Key>)

  datatype Effect = Effect(state: State, sends: seq<Send>)

  // ---- Looking petitions up ------------------------------------------------

  ghost predicate UniqueKeys(ps: seq<Petition>) {
    forall i, j :: 0 <= i < j < |ps| ==> ps[i].key != ps[j].key
  }

  /** Place of the first petition for k, or |ps|. */
  function Find(ps: seq<Petition>, k: Key): (i: nat)
    ensures i <= |ps|
    ensures i < |ps| ==> ps[i].key == k
    ensures forall j :: 0 <= j < i ==> ps[j].key != k
  {
    if ps == [] || ps[0].key == k then 0 else 1 + Find(ps[1..], k)
  }

  /** The petition for k; a petition that is not listed counts as blank. */
  function Lookup(ps: seq<Petition>, k: Key): (p: Petition)
    ensures p.key == k
  {
    var i := Find(ps, k);
    if i < |ps| then ps[i] else Blank(k)
  }

  predicate Listed(ps: seq<Petition>, k: Key) { Find(ps, k) < |ps| }

  lemma SameKeys(a: seq<Petition>, b: seq<Petition>, k: Key)
    requires |a| <= |b| && forall i :: 0 <= i < |a| ==> a[i].key == b[i].key
    ensures Listed(a, k) ==> Find(b, k) == Find(a, k)
    ensures |a| == |b| ==> (Listed(b, k) ==> Listed(a, k))
  {
    if Listed(a, k) { assert b[Find(a, k)].key == k; }
    if Listed(b, k) && |a| == |b| { assert a[Find(b, k)].key == k; }
  }

  lemma LookupAt(ps: seq<Petition>, i: nat)
    requires UniqueKeys(ps) && i < |ps|
    ensures Find(ps, ps[i].key) == i && Lookup(ps, ps[i].key) == ps[i]
  {
    var j := Find(ps, ps[i].key);
    assert j <= i;
  }

  lemma LookupUpdate(ps: seq<Petition>, i: nat, p: Petition, k: Key)
    requires UniqueKeys(ps) && i < |ps| && p.key == ps[i].key
    ensures UniqueKeys(ps[i := p])
    ensures Lookup(ps[i := p], k) == if k == p.key then p else Lookup(ps, k)
  {
    var q := ps[i := p];
    LookupAt(q, i);
    var j := Find(ps, k);
    if k != p.key {
      if j < |ps| { assert q[j] == ps[j]; LookupAt(q, j); }
    }
  }

  lemma LookupAppend(ps: seq<Petition>, p: Petition, k: Key)
    requires UniqueKeys(ps) && Find(ps, p.key) == |ps|
    ensures UniqueKeys(ps + [p])
    ensures Lookup(ps + [p], k) == if k == p.key then p else Lookup(ps, k)
  {
    var q := ps + [p];
    LookupAt(q, |ps|);
    var j := Find(ps, k);
    if k != p.key {
      if j < |ps| { assert q[j] == ps[j]; LookupAt(q, j); }
    }
  }

  // ---- Which RPDUs go where --------------------------------------------------

  /** The RPDUs sent to y, in order. */
  function To(sends: seq<Send>, y: Node): seq<Rpdu> {
    if sends == [] then []
    else (if sends[0].dest == y then [sends[0].rpdu] else []) + To(sends[1..], y)
  }

  /** The RPDUs about petition k, in order. */
  function About(rpdus: seq<Rpdu>, k: Key): seq<Rpdu> {
    if rpdus == [] then []
    else (if rpdus[0].key == k then [rpdus[0]] else []) + About(rpdus[1..], k)
  }

  lemma {:induction false} AboutHas(rpdus: seq<Rpdu>, m: Rpdu)
    ensures m in rpdus <==> m in About(rpdus, m.key)
  {
    if rpdus != [] { AboutHas(rpdus[1..], m); }
  }

  lemma {:induction false} ToConcat(a: seq<Send>, b: seq<Send>, y: Node)
    ensures To(a + b, y) == To(a, y) + To(b, y)
  {
    if a == [] {
      assert a + b == b;
    } else {
      ConsConcat(a, b);
      ToConcat(a[1..], b, y);
      Assoc(if a[0].dest == y then [a[0].rpdu] else [], To(a[1..], y), To(b, y));
    }
  }

  lemma {:induction false} AboutConcat(a: seq<Rpdu>, b: seq<Rpdu>, k: Key)
    ensures About(a + b, k) == About(a, k) + About(b, k)
  {
    if a == [] {
      assert a + b == b;
    } else {
      ConsConcat(a, b);
      AboutConcat(a[1..], b, k);
      Assoc(if a[0].key == k then [a[0]] else [], About(a[1..], k), About(b, k));
    }
  }

  /** r sent to each of the nodes in turn. */
  function SendAll(nodes: seq<Node>, r: Rpdu): (s: seq<Send>)
    ensures |s| == |nodes|
    ensures forall i {:trigger s[i]} :: 0 <= i < |s| ==> s[i] == Send(nodes[i], r)
  {
    seq(|nodes|, i requires 0 <= i < |nodes| => Send(nodes[i], r))
  }

  lemma {:induction false} SendAllTo(nodes: seq<Node>, r: Rpdu, y: Node)
    requires NoRepeats(nodes)
    ensures To(SendAll(nodes, r), y) == if y in nodes then [r] else []
  {
    var s := SendAll(nodes, r);
    if nodes != [] {
      assert s[1..] == SendAll(nodes[1..], r);
      SendAllTo(nodes[1..], r, y);
    }
  }

  // ---- AssertionSet, PetitionIsAssertable, GetConduitForContinuum ----------------

  /** The first neighbour that asserted the pseudo-subject of continuum c. */
  function Conduit(ps: seq<Petition>, c: int): (r: Option<Node>)
    ensures r == None ==> forall p :: p in ps && p.key.subject == Pseudo(c) ==> p.dgs == []
    ensures r.Some? ==> exists p :: p in ps && p.key.subject == Pseudo(c) && p.dgs != [] && r.value == p.dgs[0]
  {
    if ps == [] then None
    else if ps[0].key.subject == Pseudo(c) && ps[0].dgs != [] then Some(ps[0].dgs[0])
    else Conduit(ps[1..], c)
  }

  predicate Assertable(g: State, p: Petition) {
    p.dms != [] || (g.tree && p.dgs != [])
  }

  /** The neighbours in the petition's domain, before any is ruled out. */
  function Domain(g: State, p: Petition): seq<Node> {
    if p.key.cont == 0 then g.declared
    else match Conduit(g.petitions, p.key.cont)
      case None => []
      case Some(n) => [n]
  }

  function AssertionSet(g: State, p: Petition): seq<Node> {
    var s := Without(Domain(g, p), p.sgs);
    if p.dms == [] && |p.dgs| == 1 then Without(s, p.dgs) else s
  }

  // ---- AssertPetition and CancelPetition ------------------------------------------

  function AssertPetition(g: State, p: Petition): (Petition, seq<Send>) {
    if Assertable(g, p) then
      var to := AssertionSet(g, p);
      (p.(sgs := Union(p.sgs, to)), SendAll(to, Assertion(p.key)))
    else (p, [])
  }

  /** AssertPetition of the i-th petition of a gateway. */
  function AssertAt(g: State, i: nat): Effect
    requires i < |g.petitions|
  {
    var a := AssertPetition(g, g.petitions[i]);
    Effect(g.(petitions := g.petitions[i := a.0]), a.1)
  }

  /** The neighbours to which CancelPetition sends the cancellation. */
  function CancelSet(p: Petition): seq<Node> {
    if p.dgs == [] then p.sgs
    else if |p.dgs| == 1 && p.dgs[0] in p.sgs then [p.dgs[0]]
    else []
  }

  function CancelPetition(p: Petition): (Petition, seq<Send>) {
    var sgs := if p.dgs == [] then []
               else if |p.dgs| == 1 then RemoveFirst(p.sgs, p.dgs[0])
               else p.sgs;
    (p.(sgs := sgs), SendAll(CancelSet(p), Cancellation(p.key)))
  }

  function CancelIfIdle(g: State, p: Petition): (Petition, seq<Send>) {
    if Assertable(g, p) then (p, []) else CancelPetition(p)
  }

  function CancelAt(g: State, i: nat, p: Petition): Effect
    requires i < |g.petitions|
  {
    var c := CancelIfIdle(g, p);
    Effect(g.(petitions := g.petitions[i := c.0]), c.1)
  }

  // ---- Walking all petitions ------------------------------------------------------

  type Rule = Petition -> (Petition, seq<Send>)

  /** The first n lists of RPDUs, one after the other. */
  function Joined(lists: seq<seq<Send>>, n: nat): seq<Send>
    requires n <= |lists|
  {
    if n == 0 then [] else Joined(lists, n - 1) + lists[n-1]
  }

  /** What the rule f sends for each petition. */
  function Replies(ps: seq<Petition>, f: Rule): (r: seq<seq<Send>>)
    ensures |r| == |ps|
    ensures forall i {:trigger r[i]} :: 0 <= i < |ps| ==> r[i] == f(ps[i]).1
  {
    seq(|ps|, i requires 0 <= i < |ps| => f(ps[i]).1)
  }

  /** Applies f to every petition in turn, collecting what is sent. */
  function Walk(ps: seq<Petition>, f: Rule): (r: (seq<Petition>, seq<Send>))
    ensures |r.0| == |ps|
    ensures forall i {:trigger r.0[i]} :: 0 <= i < |ps| ==> r.0[i] == f(ps[i]).0
  {
    (seq(|ps|, i requires 0 <= i < |ps| => f(ps[i]).0), Joined(Replies(ps, f), |ps|))
  }

  /** f keeps the key of a petition, sends only about it, and leaves blank ones alone. */
  ghost predicate PerPetition(f: Rule) {
    && (forall p :: f(p).0.key == p.key)
    && (forall p, s :: s in f(p).1 ==> s.rpdu.key == p.key)
    && (forall k :: f(Blank(k)) == (Blank(k), []))
  }

  lemma {:induction false} AllAbout(sends: seq<Send>, y: Node, k: Key, k': Key)
    requires forall s :: s in sends ==> s.rpdu.key == k
    ensures About(To(sends, y), k') == if k' == k then To(sends, y) else []
  {
    if sends != [] {
      AllAbout(sends[1..], y, k, k');
      var head := if sends[0].dest == y then [sends[0].rpdu] else [];
      AboutConcat(head, To(sends[1..], y), k');
    }
  }

  /** Among the replies for the first n petitions, those about k are v, the
      replies for the petition for k, if it is one of them. */
  lemma {:induction false} JoinedAbout(ps: seq<Petition>, f: Rule, n: nat, y: Node, k: Key, v: seq<Rpdu>)
    requires UniqueKeys(ps) && PerPetition(f) && n <= |ps| && v == To(f(Lookup(ps, k)).1, y)
    ensures About(To(Joined(Replies(ps, f), n), y), k) == if Find(ps, k) < n then v else []
  {
    if n > 0 {
      var i := Find(ps, k);
      var before, last := if i < n - 1 then v else [], if i == n - 1 then v else [];
      JoinedAbout(ps, f, n - 1, y, k, v);
      ReplyAbout(ps, f, n - 1, y, k, v);
      JoinedNext(Replies(ps, f), n, y, k, before, last);
      OneOfTwo(before, last);
    }
  }

  lemma ReplyAbout(ps: seq<Petition>, f: Rule, j: nat, y: Node, k: Key, v: seq<Rpdu>)
    requires UniqueKeys(ps) && PerPetition(f) && j < |ps| && v == To(f(Lookup(ps, k)).1, y)
    ensures About(To(Replies(ps, f)[j], y), k) == if Find(ps, k) == j then v else []
  {
    AllAbout(Replies(ps, f)[j], y, ps[j].key, k);
    if ps[j].key == k { LookupAt(ps, j); }
  }

  lemma JoinedNext(lists: seq<seq<Send>>, n: nat, y: Node, k: Key, before: seq<Rpdu>, last: seq<Rpdu>)
    requires 0 < n <= |lists|
    requires About(To(Joined(lists, n - 1), y), k) == before && About(To(lists[n-1], y), k) == last
    ensures About(To(Joined(lists, n), y), k) == before + last
  {
    SentAboutConcat(Joined(lists, n - 1), lists[n-1], y, k);
  }

  lemma OneOfTwo<T>(a: seq<T>, b: seq<T>)
    ensures a == [] ==> a + b == b
    ensures b == [] ==> a + b == a
  {
  }

  lemma RepliesAbout(ps: seq<Petition>, f: Rule, y: Node, k: Key)
    requires UniqueKeys(ps) && PerPetition(f)
    ensures About(To(Joined(Replies(ps, f), |ps|), y), k)
      == if Listed(ps, k) then To(f(Lookup(ps, k)).1, y) else []
  {
    JoinedAbout(ps, f, |ps|, y, k, To(f(Lookup(ps, k)).1, y));
  }

  lemma SentAboutConcat(a: seq<Send>, b: seq<Send>, y: Node, k: Key)
    ensures About(To(a + b, y), k) == About(To(a, y), k) + About(To(b, y), k)
  {
    ToConcat(a, b, y); AboutConcat(To(a, y), To(b, y), k);
  }

  /** A walk acts on each petition separately. */
  lemma WalkEffect(ps: seq<Petition>, f: Rule, y: Node, k: Key)
    requires UniqueKeys(ps) && PerPetition(f)
    ensures UniqueKeys(Walk(ps, f).0)
    ensures Lookup(Walk(ps, f).0, k) == f(Lookup(ps, k)).0
    ensures About(To(Walk(ps, f).1, y), k) == To(f(Lookup(ps, k)).1, y)
  {
    var r, i := Walk(ps, f).0, Find(ps, k);
    RepliesAbout(ps, f, y, k);
    assert UniqueKeys(r);
    SameKeys(r, ps, k); SameKeys(ps, r, k);
    if i == |ps| { assert To(f(Blank(k)).1, y) == []; }
  }

  // ---- Receiving a petition assertion ---------------------------------------------

  function NoteDeclaration(g: State, from: Node): State {
    if from in g.declared then g else g.(declared := g.declared + [from])
  }

  /** The asserting node joins the DGS; the first one also makes us subscribe. */
  function Enrol(g: State, from: Node, k: Key): State {
    var i := Find(g.petitions, k);
    var p := Lookup(g.petitions, k);
    var p' := p.(dgs := p.dgs + [from]);
    g.(petitions := if i < |g.petitions| then g.petitions[i := p'] else g.petitions + [p'],
       subscribed := if |p'.dgs| == 1 && (k.cont == 0 || k.cont == g.me)
                     then g.subscribed + {k} else g.subscribed)
  }

  /** A petition other than k is passed on to the new conduit if it is due there. */
  function PassOn(g: State, from: Node, k: Key, p: Petition): (Petition, seq<Send>) {
    if p.key != k && Assertable(g, p) && from in AssertionSet(g, p)
    then (p.(sgs := p.sgs + [from]), [Send(from, Assertion(p.key))])
    else (p, [])
  }

  function PassOnRule(g: State, from: Node, k: Key): Rule {
    p => PassOn(g, from, k, p)
  }

  /** The new conduit, if k makes `from` one, learns of all other petitions. */
  function PassAll(g: State, from: Node, k: Key): Effect {
    if k.subject < 0 then
      var w := Walk(g.petitions, PassOnRule(g, from, k));
      Effect(g.(petitions := w.0), w.1)
    else Effect(g, [])
  }

  /** HandlePetitionAssertion, outside playback. */
  function HandleAssertion(g: State, from: Node, k: Key): Effect {
    var p := PassAll(Enrol(g, from, k), from, k);
    var a := AssertAt(p.state, Find(g.petitions, k));
    Effect(a.state, p.sends + a.sends)
  }

  /** The PetitionAssertion branch of HandleRPDU: assertions from a node that
      has not declared itself are dropped. */
  function ReceiveAssertion(g: State, from: Node, k: Key): Effect {
    if k.subject == Pseudo(from) then HandleAssertion(NoteDeclaration(g, from), from, k)
    else if from in g.declared then HandleAssertion(g, from, k)
    else Effect(g, [])
  }

  // ---- Receiving a petition cancellation --------------------------------------------

  /** The cancelling node leaves the DGS; the last one also makes us unsubscribe. */
  function Withdraw(g: State, from: Node, k: Key): State {
    var i := Find(g.petitions, k);
    var p := Lookup(g.petitions, k);
    var p' := p.(dgs := RemoveFirst(p.dgs, from));
    if i < |g.petitions| then
      g.(petitions := g.petitions[i := p'],
         subscribed := if p'.dgs == [] && (k.cont == 0 || k.cont == g.me)
                       then g.subscribed - {k} else g.subscribed)
    else g
  }

  /** What a retracting neighbour leaves behind of one petition. */
  function Retract(g: State, from: Node, p: Petition): (Petition, seq<Send>) {
    var p' := p.(sgs := RemoveFirst(p.sgs, from), dgs := RemoveFirst(p.dgs, from));
    var reply := if from in p.sgs || from in p.dgs then [Send(from, Cancellation(p.key))] else [];
    var c := CancelIfIdle(g, p');
    (c.0, reply + c.1)
  }

  function RetractRule(g: State, from: Node): Rule {
    p => Retract(g, from, p)
  }

  /** HandlePetitionCancellation, outside playback. */
  function HandleCancellation(g: State, from: Node, k: Key): Effect {
    var i := Find(g.petitions, k);
    if i == |g.petitions| || from !in g.petitions[i].dgs then Effect(g, [])
    else
      var g1 := Withdraw(g, from, k);
      if k.subject != Pseudo(from) then
        CancelAt(g1, i, g1.petitions[i])
      else
        var w := Walk(g1.petitions, RetractRule(g1, from));
        Effect(g1.(petitions := w.0, declared := RemoveFirst(g1.declared, from)), w.1)
  }

  function Receive(g: State, from: Node, r: Rpdu): Effect {
    match r
    case Assertion(k) => ReceiveAssertion(g, from, k)
    case Cancellation(k) => HandleCancellation(g, from, k)
  }

  /** A node that has not declared itself can assert nothing but its own
      declaration, and one that has not asked for a petition cannot cancel it. */
  lemma StrangersIgnored(g: State, from: Node, k: Key)
    ensures from !in g.declared && k.subject != Pseudo(from) ==> Receive(g, from, Assertion(k)) == Effect(g, [])
    ensures from !in Lookup(g.petitions, k).dgs ==> Receive(g, from, Cancellation(k)) == Effect(g, [])
  {
  }

  /** The declared neighbours by the time that r is acted on. */
  function DeclaredFor(g: State, from: Node, r: Rpdu): seq<Node> {
    if r.Assertion? && r.key.subject == Pseudo(from) then NoteDeclaration(g, from).declared else g.declared
  }

  /** For an assertion these are the declared neighbours afterwards. */
  lemma DeclaredAfterwards(g: State, from: Node, k: Key)
    ensures Receive(g, from, Assertion(k)).state.declared == DeclaredFor(g, from, Assertion(k))
    ensures DeclaredFor(g, from, Cancellation(k)) == g.declared
  {
  }

  /** Everything is sent to one of the nodes. */
  ghost predicate AllTo(nodes: seq<Node>, sends: seq<Send>) {
    forall s :: s in sends ==> s.dest in nodes
  }

  // ---- Local subscribers --------------------------------------------------------------

  /** A module joins the DMS of a petition, which may create the petition. */
  function Admit(g: State, m: ModuleId, k: Key): State {
    var i := Find(g.petitions, k);
    var p := Lookup(g.petitions, k);
    var p' := p.(dms := p.dms + [m]);
    g.(petitions := if i < |g.petitions| then g.petitions[i := p'] else g.petitions + [p'])
  }

  function AddPetitioner(g: State, m: ModuleId, k: Key): Effect {
    if m in Lookup(g.petitions, k).dms then Effect(g, [])
    else
      AssertAt(Admit(g, m, k), Find(g.petitions, k))
  }

  function RemovePetitioner(g: State, m: ModuleId, k: Key): Effect {
    var i := Find(g.petitions, k);
    if i == |g.petitions| then Effect(g, [])
    else
      var p := g.petitions[i];
      CancelAt(g, i, p.(dms := RemoveFirst(p.dms, m)))
  }

  /** HandleSubscription: only foreign domains, and not the gateway's own. */
  function Subscribe(g: State, m: ModuleId, k: Key): Effect {
    if k.cont != g.me && m != g.self then AddPetitioner(g, m, k) else Effect(g, [])
  }

  function Unsubscribe(g: State, m: ModuleId, k: Key): Effect {
    if k.cont != g.me && m != g.self then RemovePetitioner(g, m, k) else Effect(g, [])
  }

  // ---- Start and termination ------------------------------------------------------------

  /** rams_run: the gateway declares itself to all its neighbours. */
  function Start(me: Node, self: ModuleId, tree: bool, neighbors: seq<Node>): Effect {
    Effect(State(me, self, tree, [], [Petition(OwnKey(me), [self], [], neighbors)], {OwnKey(me)}),
           SendAll(neighbors, Assertion(OwnKey(me))))
  }

  /** Who is told of a termination, and what remains of the SGS afterwards. */
  function Farewell(nodes: seq<Node>, sgs: seq<Node>): (r: (seq<Node>, seq<Node>)) {
    if nodes == [] then ([], sgs)
    else
      var r := Farewell(nodes[..|nodes|-1], sgs);
      var y := nodes[|nodes|-1];
      if y in r.1 then (r.0 + [y], RemoveFirst(r.1, y)) else r
  }

  /** Place of the first petition on a subject, or |ps|. */
  function FindSubject(ps: seq<Petition>, subject: int): (i: nat)
    ensures i <= |ps|
    ensures i < |ps| ==> ps[i].key.subject == subject
    ensures forall j :: 0 <= j < i ==> ps[j].key.subject != subject
  {
    if ps == [] || ps[0].key.subject == subject then 0 else 1 + FindSubject(ps[1..], subject)
  }

  /** TerminateGateway: the gateway retracts itself from its neighbours. */
  function Terminate(g: State): Effect {
    var i := FindSubject(g.petitions, Pseudo(g.me));
    if i == |g.petitions| then Effect(g, [])
    else
      var p := g.petitions[i];
      var f := Farewell(g.declared, p.sgs);
      Effect(g.(petitions := g.petitions[i := p.(sgs := f.1)]), SendAll(f.0, Cancellation(OwnKey(g.me))))
  }
}
