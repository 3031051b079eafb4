/** What two neighbouring gateways and the RPDUs between them agree on. */
module Links {
  import opened Lists
  import opened Topology
  import opened Petitions
  import opened Effects
  import opened Soundness
  import opened Shrinking

  /** Starting from `was`, the queued RPDUs about one petition switch the
      receiver's view back and forth and leave it at `now`: never two
      assertions without a cancellation between them. */
  ghost predicate Alternates(was: bool, q: seq<Rpdu>, now: bool)
    decreases |q|
  {
    if q == [] then was == now
    else q[0].Assertion? == !was && Alternates(!was, q[1..], now)
  }

  lemma {:induction false} AlternatesExtend(was: bool, q: seq<Rpdu>, now: bool, k: Key, now': bool)
    requires Alternates(was, q, now)
    decreases |q|
    ensures Alternates(was, q + Change(k, now, now'), now')
  {
    var c := Change(k, now, now');
    if q == [] {
      assert q + c == c;
    } else {
      assert (q + c)[0] == q[0] && (q + c)[1..] == q[1..] + c;
      AlternatesExtend(!was, q[1..], now, k, now');
    }
  }

  /** An RPDU on its way from a to b; declarations come from the next hop
      towards the declared continuum. */
  ghost predicate InFlightOk(t: Tree, a: Node, b: Node, r: Rpdu) {
    && Proper(t, r.key)
    && (r.Assertion? ==> forall c :: r.key == OwnKey(c) ==> b != c && Hop(t, b, c) == a)
  }

  /** Link agreement: b is in a's SGS iff a is in b's DGS once the queue q from
      a to b has been handled; a's own declaration comes first and its
      retraction, sent only when a is `gone`, last. */
  ghost predicate Agree(t: Tree, ga: State, q: seq<Rpdu>, gb: State, gone: bool) {
    && (forall k :: AgreeOn(ga, q, gb, k))
    && (ga.me in gb.declared || (q != [] && q[0] == Assertion(OwnKey(ga.me))))
    && (forall r :: r in q ==> InFlightOk(t, ga.me, gb.me, r))
    && (forall i :: 0 <= i < |q| && q[i] == Cancellation(OwnKey(ga.me)) ==> gone && i == |q| - 1)
  }

  ghost predicate AgreeOn(ga: State, q: seq<Rpdu>, gb: State, k: Key) {
    Alternates(ga.me in Lookup(gb.petitions, k).dgs, About(q, k), gb.me in Lookup(ga.petitions, k).sgs)
  }

  /** Handling an event at a keeps the agreement. */
  lemma SenderKeeps(t: Tree, ga: State, e: Effect, who: Option<Node>, q: seq<Rpdu>, gb: State)
    requires Agree(t, ga, q, gb, false) && GoodStep(t, ga, e, who) && who != Some(gb.me)
    ensures Agree(t, e.state, q + To(e.sends, gb.me), gb, false)
  {
    var more := To(e.sends, gb.me);
    forall k ensures AgreeOn(e.state, q + more, gb, k) {
      assert AgreeOn(ga, q, gb, k); assert Disciplined(ga, e, gb.me, k);
      AboutConcat(q, more, k);
      AlternatesExtend(ga.me in Lookup(gb.petitions, k).dgs, About(q, k), gb.me in Lookup(ga.petitions, k).sgs,
        k, gb.me in Lookup(e.state.petitions, k).sgs);
    }
    forall r | r in q + more ensures InFlightOk(t, ga.me, gb.me, r) {
      if r !in q { assert SendOk(t, ga, gb.me, r); }
    }
    forall i | 0 <= i < |q + more| ensures (q + more)[i] != Cancellation(OwnKey(ga.me)) {
      if i >= |q| { assert SendOk(t, ga, gb.me, more[i - |q|]); }
    }
  }

  /** So does its termination. */
  lemma SenderLeaves(t: Tree, ga: State, q: seq<Rpdu>, gb: State)
    requires Sound(t, ga) && Agree(t, ga, q, gb, false)
    ensures var e := Terminate(ga); Agree(t, e.state, q + To(e.sends, gb.me), gb, true)
  {
    var e := Terminate(ga);
    var more := To(e.sends, gb.me);
    TerminationEffect(t, ga, gb.me, OwnKey(ga.me));
    forall k ensures AgreeOn(e.state, q + more, gb, k) {
      assert AgreeOn(ga, q, gb, k);
      TerminationEffect(t, ga, gb.me, k);
      AboutConcat(q, more, k);
      AlternatesExtend(ga.me in Lookup(gb.petitions, k).dgs, About(q, k), gb.me in Lookup(ga.petitions, k).sgs,
        k, gb.me in Lookup(e.state.petitions, k).sgs);
    }
  }

  /** A change at b that leaves a's place alone keeps the agreement. */
  lemma BystanderKeeps(t: Tree, ga: State, q: seq<Rpdu>, gb: State, gb': State, gone: bool)
    requires Agree(t, ga, q, gb, gone) && gb'.me == gb.me
    requires ga.me in gb.declared ==> ga.me in gb'.declared
    requires forall k :: ga.me in Lookup(gb'.petitions, k).dgs <==> ga.me in Lookup(gb.petitions, k).dgs
    ensures Agree(t, ga, q, gb', gone)
  {
    forall k ensures AgreeOn(ga, q, gb', k) { assert AgreeOn(ga, q, gb, k); }
  }

  /** What b may rely on when it takes the head of the queue from a. */
  lemma HeadIsExpected(t: Tree, ga: State, q: seq<Rpdu>, gb: State, gone: bool)
    requires Agree(t, ga, q, gb, gone) && q != [] && Adj(t, gb.me, ga.me)
    ensures q[0].Assertion? ==> Expected(t, gb, ga.me, q[0].key)
    ensures q[0].Cancellation? ==> Proper(t, q[0].key) && ga.me in Lookup(gb.petitions, q[0].key).dgs
    ensures q[0] == Cancellation(OwnKey(ga.me)) ==> gone && |q| == 1
  {
    assert AgreeOn(ga, q, gb, q[0].key);
    assert q[0] in q && InFlightOk(t, ga.me, gb.me, q[0]);
  }

  /** Taking the head of the queue keeps the agreement about the rest. */
  lemma ReceiverKeeps(t: Tree, ga: State, q: seq<Rpdu>, gb: State, gb': State, gone: bool)
    requires Agree(t, ga, q, gb, gone) && q != [] && gb'.me == gb.me && ga.me in gb'.declared
    requires forall k :: (ga.me in Lookup(gb'.petitions, k).dgs
      <==> if k == q[0].key then q[0].Assertion? else ga.me in Lookup(gb.petitions, k).dgs)
    ensures Agree(t, ga, q[1..], gb', gone)
  {
    forall k ensures AgreeOn(ga, q[1..], gb', k) {
      assert AgreeOn(ga, q, gb, k);
      if k == q[0].key { assert About(q, k)[1..] == About(q[1..], k); }
      else { assert About(q, k) == About(q[1..], k); }
    }
  }
}
