/** The transmission rules of one module, by subject, and their
    resynchronization with what the module declares. */
module Resync {
  import opened Lists
  import opened Units
  import opened RuleTables
  import opened Transmission

  datatype Slot = Slot(subject: int, t: RuleType)

  /** The rules asserted by one module. */
  type Book = map<Slot, seq<XmitRule>>

  function At(b: Book, slot: Slot): seq<XmitRule> {
    if slot in b then b[slot] else []
  }

  /** What bears on a module's assertions: the local continuum, the subjects
      known, where the module receives, and what it is authorized to receive. */
  datatype Receiver = Receiver(local: nat, known: set<int>, points: seq<Endpoint>, authorized: set<int>)

  datatype Assertion = Assertion(subject: int, role: nat, continuum: nat, unit: nat,
                                 vector: nat, priority: nat, flowLabel: nat)

  ghost predicate Ascending(points: seq<Endpoint>) {
    forall i, j :: 0 <= i < j < |points| ==> points[i].vector < points[j].vector
  }

  /** The points are in order of their vectors, so the search may stop early. */
  function PointOf(points: seq<Endpoint>, vector: nat): (r: Option<Endpoint>)
  {
    if points == [] then None
    else if points[0].vector < vector then PointOf(points[1..], vector)
    else if points[0].vector > vector then None
    else Some(points[0])
  }

  lemma {:induction false} PointFound(points: seq<Endpoint>, vector: nat)
    requires Ascending(points)
    ensures PointOf(points, vector).None? <==> forall p :: p in points ==> p.vector != vector
    ensures PointOf(points, vector).Some? ==>
      PointOf(points, vector).value in points && PointOf(points, vector).value.vector == vector
  {
    if points != [] {
      PointFound(points[1..], vector);
      assert points == [points[0]] + points[1..];
    }
  }

  /** What an assertion comes to: a rule for a subject. */
  datatype Claim = Claim(subject: int, rule: XmitRule)

  /** No claim: subscription to all subjects of another continuum, unknown
      subject, or undeliverable. Subject 0 means the local continuum. */
  function Understood(env: Receiver, t: RuleType, a: Assertion, flag: bool): (r: Option<Claim>)
    ensures r.Some? ==> (r.value.rule.okay <==> r.value.subject in env.authorized)
    ensures r.Some? ==> r.value.rule.confirmed == flag && r.value.subject == a.subject
    ensures r.Some? ==> r.value.rule.unit == a.unit
  {
    if a.subject == 0 then
      if t == Subscription && a.continuum != env.local then None
      else Deliverable(env, a.(continuum := env.local), flag)
    else if a.subject !in env.known then None
    else Deliverable(env, a, flag)
  }

  function Deliverable(env: Receiver, a: Assertion, flag: bool): (r: Option<Claim>) {
    match PointOf(env.points, a.vector)
    case None => None
    case Some(p) =>
      Some(Claim(a.subject, XmitRule(a.role, a.continuum, a.unit, a.priority, a.flowLabel, p,
                                     a.subject in env.authorized, flag)))
  }

  /** The module receives at a point with the assertion's vector. */
  ghost predicate HasPoint(env: Receiver, a: Assertion) {
    exists p :: p in env.points && p.vector == a.vector
  }

  /** The subject is known; to all subjects one can subscribe here only. */
  ghost predicate Acceptable(env: Receiver, t: RuleType, a: Assertion) {
    a.subject in env.known || (a.subject == 0 && (t == Invitation || a.continuum == env.local))
  }

  /** r says what a does, at the point it names; about all subjects it is for
      the local continuum. */
  ghost predicate SaysSo(env: Receiver, a: Assertion, r: XmitRule) {
    && r.role == a.role && r.unit == a.unit && r.priority == a.priority && r.flowLabel == a.flowLabel
    && r.continuum == (if a.subject == 0 then env.local else a.continuum)
    && r.point in env.points && r.point.vector == a.vector
    && (r.okay <==> a.subject in env.authorized)
  }

  /** An assertion comes to something exactly if its subject is acceptable and
      the module receives there, and then to a rule that says so. */
  lemma UnderstoodExactly(env: Receiver, t: RuleType, a: Assertion, flag: bool)
    requires Ascending(env.points) && 0 !in env.known
    ensures Understood(env, t, a, flag).Some? <==> Acceptable(env, t, a) && HasPoint(env, a)
    ensures Understood(env, t, a, flag).Some? ==>
      var c := Understood(env, t, a, flag).value;
      c.subject == a.subject && c.rule.confirmed == flag && SaysSo(env, a, c.rule)
  {
    PointFound(env.points, a.vector);
  }

  // ---- Taking in declarations --------------------------------------------------------------

  ghost function Note(names: Names, b: Book, t: RuleType, c: Claim): (r: Book) {
    b[Slot(c.subject, t) := NoteRule(names, At(b, Slot(c.subject, t)), c.rule)]
  }

  ghost function Heed(names: Names, env: Receiver, b: Book, t: RuleType, a: Assertion, flag: bool): (r: Book) {
    match Understood(env, t, a, flag)
    case None => b
    case Some(c) => Note(names, b, t, c)
  }

  ghost function HeedAll(names: Names, env: Receiver, b: Book, t: RuleType, asserted: seq<Assertion>, flag: bool)
    : (r: Book)
  {
    if asserted == [] then b
    else
      Heed(names, env, HeedAll(names, env, b, t, asserted[..|asserted|-1], flag), t, asserted[|asserted|-1], flag)
  }

  lemma HeedAllNext(names: Names, env: Receiver, b: Book, t: RuleType, asserted: seq<Assertion>, k: nat, flag: bool)
    requires k < |asserted|
    ensures HeedAll(names, env, b, t, asserted[..k+1], flag) ==
      Heed(names, env, HeedAll(names, env, b, t, asserted[..k], flag), t, asserted[k], flag)
  {
    assert asserted[..k+1][..k] == asserted[..k];
  }

  datatype Declaration = Declaration(subscriptions: seq<Assertion>, invitations: seq<Assertion>)

  function Listed(d: Declaration, t: RuleType): seq<Assertion> {
    if t == Subscription then d.subscriptions else d.invitations
  }

  ghost function Declare(names: Names, env: Receiver, b: Book, d: Declaration, flag: bool): (r: Book) {
    HeedAll(names, env, HeedAll(names, env, b, Subscription, d.subscriptions, flag), Invitation, d.invitations, flag)
  }

  /** cancelUnconfirmedAssertions, for one list. */
  function SweepRules(rules: seq<XmitRule>): (r: seq<XmitRule>)
    ensures forall x :: x in r ==> !x.confirmed
  {
    if rules == [] then []
    else
      var last := rules[|rules|-1];
      SweepRules(rules[..|rules|-1]) + if last.confirmed then [last.(confirmed := false)] else []
  }

  function Sweep(b: Book): (r: Book) {
    map slot | slot in b :: SweepRules(b[slot])
  }

  // ---- What is declared --------------------------------------------------------------------

  /** The rule a list of assertions gives for a subject and key: that of the
      last assertion about them that is understood. */
  function Declared(env: Receiver, t: RuleType, asserted: seq<Assertion>, subject: int, key: Key, flag: bool)
    : (r: Option<XmitRule>)
    ensures r.Some? ==> XmitKey(r.value) == key && r.value.confirmed == flag
    ensures r.Some? ==> (r.value.okay <==> subject in env.authorized)
  {
    if asserted == [] then None
    else
      var c := Understood(env, t, asserted[|asserted|-1], flag);
      if c.Some? && c.value.subject == subject && XmitKey(c.value.rule) == key then Some(c.value.rule)
      else Declared(env, t, asserted[..|asserted|-1], subject, key, flag)
  }

  /** In order, and marked as authorized exactly if they are. */
  ghost predicate Regular(names: Names, env: Receiver, b: Book) {
    forall slot :: OrderedXmit(names, At(b, slot)) && Authorized(env, slot.subject, At(b, slot))
  }

  ghost predicate Authorized(env: Receiver, subject: int, rules: seq<XmitRule>) {
    forall r :: r in rules ==> (r.okay <==> subject in env.authorized)
  }

  lemma NoteRegular(names: Names, env: Receiver, b: Book, t: RuleType, c: Claim)
    requires UniqueNames(names) && Regular(names, env, b) && (c.rule.okay <==> c.subject in env.authorized)
    ensures Regular(names, env, Note(names, b, t, c))
  {
    var b' := Note(names, b, t, c);
    forall slot ensures OrderedXmit(names, At(b', slot)) && Authorized(env, slot.subject, At(b', slot)) {
      var rules := At(b, slot);
      assert OrderedXmit(names, rules) && Authorized(env, slot.subject, rules);
      if slot == Slot(c.subject, t) {
        NoteRuleEffect(names, rules, c.rule, XmitKey(c.rule));
        var k := Position(names, XmitKeys(rules), XmitKey(c.rule));
        if k < |rules| && XmitKey(rules[k]) == XmitKey(c.rule) {
          UpdateElements(rules, k, Renewed(rules[k], c.rule));
        } else {
          InsertAtElements(rules, c.rule, k);
        }
      }
    }
  }

  lemma HeedRegular(names: Names, env: Receiver, b: Book, t: RuleType, a: Assertion, flag: bool)
    requires UniqueNames(names) && Regular(names, env, b)
    ensures Regular(names, env, Heed(names, env, b, t, a, flag))
  {
    var c := Understood(env, t, a, flag);
    if c.Some? { NoteRegular(names, env, b, t, c.value); }
  }

  lemma {:induction false} HeedAllRegular(
    names: Names, env: Receiver, b: Book, t: RuleType, asserted: seq<Assertion>, flag: bool)
    requires UniqueNames(names) && Regular(names, env, b)
    ensures Regular(names, env, HeedAll(names, env, b, t, asserted, flag))
  {
    if asserted != [] {
      var n := |asserted| - 1;
      HeedAllRegular(names, env, b, t, asserted[..n], flag);
      HeedRegular(names, env, HeedAll(names, env, b, t, asserted[..n], flag), t, asserted[n], flag);
    }
  }

  /** After a list of assertions the rule of a key is the one declared, or
      else the one there was. */
  lemma {:induction false} HeedAllEffect(
    names: Names, env: Receiver, b: Book, t: RuleType, asserted: seq<Assertion>, slot: Slot, key: Key)
    requires UniqueNames(names) && Regular(names, env, b)
    ensures Regular(names, env, HeedAll(names, env, b, t, asserted, true))
    ensures RuleOf(At(HeedAll(names, env, b, t, asserted, true), slot), key) ==
      if slot.t == t && Declared(env, t, asserted, slot.subject, key, true).Some?
      then Declared(env, t, asserted, slot.subject, key, true)
      else RuleOf(At(b, slot), key)
  {
    if asserted != [] {
      var n := |asserted| - 1;
      var b1 := HeedAll(names, env, b, t, asserted[..n], true);
      HeedAllEffect(names, env, b, t, asserted[..n], slot, key);
      var c := Understood(env, t, asserted[n], true);
      if c.Some? {
        NoteRegular(names, env, b1, t, c.value);
        NoteEffect(names, env, b1, t, c.value, slot, key);
      }
    }
  }

  /** A rule that is marked rather than replaced is the one asserted. */
  lemma NoteEffect(names: Names, env: Receiver, b: Book, t: RuleType, c: Claim, slot: Slot, key: Key)
    requires UniqueNames(names) && Regular(names, env, b) && (c.rule.okay <==> c.subject in env.authorized)
    requires c.rule.confirmed
    ensures RuleOf(At(Note(names, b, t, c), slot), key) ==
      if slot == Slot(c.subject, t) && key == XmitKey(c.rule) then Some(c.rule) else RuleOf(At(b, slot), key)
  {
    var rules := At(b, slot);
    assert OrderedXmit(names, rules) && Authorized(env, slot.subject, rules);
    if slot == Slot(c.subject, t) {
      NoteRuleEffect(names, rules, c.rule, key);
    }
  }

  /** x is a confirmed rule of the list with its mark removed. */
  ghost predicate Survives(rules: seq<XmitRule>, x: XmitRule) {
    exists y :: y in rules && y.confirmed && x == y.(confirmed := false)
  }

  lemma {:induction false} SweepKeys(names: Names, rules: seq<XmitRule>)
    requires OrderedXmit(names, rules)
    ensures OrderedXmit(names, SweepRules(rules))
    ensures forall x :: x in SweepRules(rules) <==> Survives(rules, x)
  {
    if rules != [] {
      var n := |rules| - 1;
      assert rules == rules[..n] + [rules[n]];
      assert XmitKeys(rules[..n]) == XmitKeys(rules)[..n];
      SweepKeys(names, rules[..n]);
      var front, r := SweepRules(rules[..n]), SweepRules(rules);
      forall i, j | 0 <= i < j < |r| ensures MayPrecede(names, XmitKeys(r)[i], XmitKeys(r)[j]) {
        if j < |front| {
          assert MayPrecede(names, XmitKeys(front)[i], XmitKeys(front)[j]);
        } else {
          assert r[i] in front && Survives(rules[..n], r[i]);
          var y :| y in rules[..n] && y.confirmed && r[i] == y.(confirmed := false);
          var k :| 0 <= k < n && rules[k] == y;
          assert MayPrecede(names, XmitKeys(rules)[k], XmitKeys(rules)[n]);
        }
      }
    }
  }

  lemma SweepEffect(names: Names, rules: seq<XmitRule>, key: Key)
    requires OrderedXmit(names, rules)
    ensures RuleOf(SweepRules(rules), key) ==
      match RuleOf(rules, key)
      case Some(r) => if r.confirmed then Some(r.(confirmed := false)) else None
      case None => None
  {
    SweepKeys(names, rules);
    var a, b := RuleOf(rules, key), RuleOf(SweepRules(rules), key);
    if a.Some? && a.value.confirmed {
      var x := a.value.(confirmed := false);
      assert Survives(rules, x);
      var i :| 0 <= i < |SweepRules(rules)| && SweepRules(rules)[i] == x;
      RuleOfAt(names, SweepRules(rules), i);
    } else if b.Some? {
      assert Survives(rules, b.value);
      var y :| y in rules && y.confirmed && b.value == y.(confirmed := false);
      var i :| 0 <= i < |rules| && rules[i] == y;
      RuleOfAt(names, rules, i);
    }
  }

  /** The list for slot has a rule of this key exactly if it is declared, and
      then the declared one. */
  ghost predicate ExactAt(env: Receiver, b: Book, d: Declaration, slot: Slot, key: Key) {
    RuleOf(At(b, slot), key) ==
      match Declared(env, slot.t, Listed(d, slot.t), slot.subject, key, true)
      case Some(r) => Some(r.(confirmed := false))
      case None => None
  }

  ghost predicate Unconfirmed(b: Book) {
    forall slot, r :: r in At(b, slot) ==> !r.confirmed
  }

  /** Declaring with confirmation and then cancelling what is unconfirmed
      leaves exactly the declared rules, unmarked. */
  lemma ResyncIsExact(names: Names, env: Receiver, b: Book, d: Declaration)
    requires UniqueNames(names) && Regular(names, env, b) && Unconfirmed(b)
    ensures var final := Sweep(Declare(names, env, b, d, true));
      && Regular(names, env, final) && Unconfirmed(final)
      && forall slot, key :: ExactAt(env, final, d, slot, key)
  {
    var b1 := HeedAll(names, env, b, Subscription, d.subscriptions, true);
    var b2 := HeedAll(names, env, b1, Invitation, d.invitations, true);
    HeedAllRegular(names, env, b, Subscription, d.subscriptions, true);
    HeedAllRegular(names, env, b1, Invitation, d.invitations, true);
    SweepRegular(names, env, b2);
    forall slot: Slot, key: Key ensures ExactAt(env, Sweep(b2), d, slot, key) {
      ResyncAt(names, env, b, d, slot, key);
    }
  }

  lemma SweepRegular(names: Names, env: Receiver, b: Book)
    requires Regular(names, env, b)
    ensures Regular(names, env, Sweep(b)) && Unconfirmed(Sweep(b))
  {
    var final := Sweep(b);
    forall s: Slot ensures OrderedXmit(names, At(final, s)) && Authorized(env, s.subject, At(final, s)) {
      assert OrderedXmit(names, At(b, s)) && Authorized(env, s.subject, At(b, s));
      SweepKeys(names, At(b, s));
      forall x | x in At(final, s) ensures x.okay <==> s.subject in env.authorized {
        assert Survives(At(b, s), x);
        var y :| y in At(b, s) && y.confirmed && x == y.(confirmed := false);
      }
    }
  }

  lemma ResyncAt(names: Names, env: Receiver, b: Book, d: Declaration, slot: Slot, key: Key)
    requires UniqueNames(names) && Regular(names, env, b) && Unconfirmed(b)
    ensures ExactAt(env, Sweep(Declare(names, env, b, d, true)), d, slot, key)
  {
    var b1 := HeedAll(names, env, b, Subscription, d.subscriptions, true);
    var b2 := HeedAll(names, env, b1, Invitation, d.invitations, true);
    HeedAllEffect(names, env, b, Subscription, d.subscriptions, slot, key);
    HeedAllEffect(names, env, b1, Invitation, d.invitations, slot, key);
    assert OrderedXmit(names, At(b2, slot)) && At(Sweep(b2), slot) == SweepRules(At(b2, slot));
    SweepEffect(names, At(b2, slot), key);
  }

  /** a is about the subject and the key, and comes to something. */
  ghost predicate IsAbout(env: Receiver, t: RuleType, a: Assertion, subject: int, key: Key) {
    && Acceptable(env, t, a) && HasPoint(env, a) && a.subject == subject
    && key == Key(0, a.role, if subject == 0 then env.local else a.continuum, a.unit)
  }

  /** The i-th assertion is the last one that is about them. */
  ghost predicate LastAbout(env: Receiver, t: RuleType, asserted: seq<Assertion>, subject: int, key: Key, i: int) {
    && 0 <= i < |asserted| && IsAbout(env, t, asserted[i], subject, key)
    && forall j :: i < j < |asserted| ==> !IsAbout(env, t, asserted[j], subject, key)
  }

  lemma AboutExactly(env: Receiver, t: RuleType, a: Assertion, subject: int, key: Key, flag: bool)
    requires Ascending(env.points) && 0 !in env.known
    ensures var c := Understood(env, t, a, flag);
      IsAbout(env, t, a, subject, key) <==> c.Some? && c.value.subject == subject && XmitKey(c.value.rule) == key
  {
    UnderstoodExactly(env, t, a, flag);
  }

  /** r is what the last assertion about the subject and the key says, if there
      is one. */
  ghost predicate IsLast(env: Receiver, t: RuleType, asserted: seq<Assertion>, subject: int, key: Key,
                         r: Option<XmitRule>) {
    match r
    case None => forall i :: 0 <= i < |asserted| ==> !IsAbout(env, t, asserted[i], subject, key)
    case Some(x) => exists i :: LastAbout(env, t, asserted, subject, key, i) && SaysSo(env, asserted[i], x)
  }

  lemma LastStays(env: Receiver, t: RuleType, asserted: seq<Assertion>, subject: int, key: Key, r: Option<XmitRule>)
    requires asserted != [] && !IsAbout(env, t, asserted[|asserted|-1], subject, key)
    requires IsLast(env, t, asserted[..|asserted|-1], subject, key, r)
    ensures IsLast(env, t, asserted, subject, key, r)
  {
    var front := asserted[..|asserted|-1];
    if r.Some? {
      var i :| LastAbout(env, t, front, subject, key, i) && SaysSo(env, front[i], r.value);
      assert asserted[i] == front[i];
      forall j | i < j < |asserted| ensures !IsAbout(env, t, asserted[j], subject, key) {
        if j < |front| { assert asserted[j] == front[j]; }
      }
      assert LastAbout(env, t, asserted, subject, key, i);
    } else {
      forall j | 0 <= j < |asserted| ensures !IsAbout(env, t, asserted[j], subject, key) {
        if j < |front| { assert asserted[j] == front[j]; }
      }
    }
  }

  /** What is declared is what the last assertion about it says. */
  lemma {:induction false} DeclaredIsLast(
    env: Receiver, t: RuleType, asserted: seq<Assertion>, subject: int, key: Key, flag: bool)
    requires Ascending(env.points) && 0 !in env.known
    ensures IsLast(env, t, asserted, subject, key, Declared(env, t, asserted, subject, key, flag))
  {
    if asserted != [] {
      var n := |asserted| - 1;
      AboutExactly(env, t, asserted[n], subject, key, flag);
      if IsAbout(env, t, asserted[n], subject, key) {
        UnderstoodExactly(env, t, asserted[n], flag);
        assert LastAbout(env, t, asserted, subject, key, n);
      } else {
        DeclaredIsLast(env, t, asserted[..n], subject, key, flag);
        LastStays(env, t, asserted, subject, key, Declared(env, t, asserted[..n], subject, key, flag));
      }
    }
  }

  /** There is a rule of this key exactly if some assertion is about it, and it
      says what the last such assertion says. */
  ghost predicate AsDeclared(env: Receiver, b: Book, d: Declaration, slot: Slot, key: Key) {
    var r := RuleOf(At(b, slot), key);
    IsLast(env, slot.t, Listed(d, slot.t), slot.subject, key, r) && (r.Some? ==> !r.value.confirmed)
  }

  lemma ExactIsAsDeclared(env: Receiver, b: Book, d: Declaration, slot: Slot, key: Key)
    requires Ascending(env.points) && 0 !in env.known && ExactAt(env, b, d, slot, key)
    ensures AsDeclared(env, b, d, slot, key)
  {
    DeclaredIsLast(env, slot.t, Listed(d, slot.t), slot.subject, key, true);
    var r := Declared(env, slot.t, Listed(d, slot.t), slot.subject, key, true);
    if r.Some? {
      var i :| LastAbout(env, slot.t, Listed(d, slot.t), slot.subject, key, i)
        && SaysSo(env, Listed(d, slot.t)[i], r.value);
      assert SaysSo(env, Listed(d, slot.t)[i], r.value.(confirmed := false));
    }
  }

  /** A resynchronization leaves what the declaration says, in these terms. */
  lemma ResyncIsAsDeclared(names: Names, env: Receiver, b: Book, d: Declaration)
    requires UniqueNames(names) && Regular(names, env, b) && Unconfirmed(b)
    requires Ascending(env.points) && 0 !in env.known
    ensures var final := Sweep(Declare(names, env, b, d, true));
      forall slot, key :: AsDeclared(env, final, d, slot, key)
  {
    ResyncIsExact(names, env, b, d);
    var final := Sweep(Declare(names, env, b, d, true));
    forall slot, key ensures AsDeclared(env, final, d, slot, key) {
      ExactIsAsDeclared(env, final, d, slot, key);
    }
  }

  // ---- Cancellations -----------------------------------------------------------------------

  /** processCancellation. Nothing is done about all subjects of another
      continuum, nor about an invitation for all subjects. */
  function Cancellable(env: Receiver, t: RuleType, subject: int, continuum: nat): (r: bool) {
    if subject == 0 then t == Subscription && continuum == env.local else subject in env.known
  }

  ghost function Cancel(names: Names, env: Receiver, b: Book, t: RuleType, subject: int, key: Key): (r: Book) {
    if Cancellable(env, t, subject, key.continuum) then
      b[Slot(subject, t) := RemoveRule(names, At(b, Slot(subject, t)), key)]
    else b
  }

  /** A cancellation undoes the assertion of the same rule and nothing else,
      except that an invitation for all subjects stays. */
  lemma CancelEffect(names: Names, env: Receiver, b: Book, t: RuleType, subject: int, key: Key,
                     slot: Slot, other: Key)
    requires UniqueNames(names) && Regular(names, env, b)
    ensures Regular(names, env, Cancel(names, env, b, t, subject, key))
    ensures RuleOf(At(Cancel(names, env, b, t, subject, key), slot), other) ==
      if slot == Slot(subject, t) && other == key && Cancellable(env, t, subject, key.continuum) then None
      else RuleOf(At(b, slot), other)
  {
    var b' := Cancel(names, env, b, t, subject, key);
    var rules := At(b, Slot(subject, t));
    assert OrderedXmit(names, rules) && Authorized(env, subject, rules);
    RemoveRuleEffect(names, rules, key, other);
    var k := Position(names, XmitKeys(rules), key);
    if k < |rules| { DeleteAtElements(rules, k); }
    forall s: Slot ensures OrderedXmit(names, At(b', s)) && Authorized(env, s.subject, At(b', s)) {
      assert OrderedXmit(names, At(b, s)) && Authorized(env, s.subject, At(b, s));
    }
  }

  /** The cancellations acted on are those of acceptable assertions, except of
      invitations for all subjects. */
  lemma CancellableExactly(env: Receiver, t: RuleType, a: Assertion)
    requires 0 !in env.known
    ensures Cancellable(env, t, a.subject, a.continuum) <==>
      Acceptable(env, t, a) && !(a.subject == 0 && t == Invitation)
  {
  }

  /** To assert and then to cancel leaves no rule of that key, except that an
      invitation for all subjects stays. */
  lemma AssertedThenCancelled(names: Names, env: Receiver, b: Book, t: RuleType, a: Assertion, key: Key, flag: bool)
    requires UniqueNames(names) && Regular(names, env, b) && Ascending(env.points) && 0 !in env.known
    requires IsAbout(env, t, a, a.subject, key)
    ensures var b' := Cancel(names, env, Heed(names, env, b, t, a, flag), t, a.subject, key);
      RuleOf(At(b', Slot(a.subject, t)), key).Some? <==> a.subject == 0 && t == Invitation
  {
    var c := Understood(env, t, a, flag);
    AboutExactly(env, t, a, a.subject, key, flag);
    HeedRegular(names, env, b, t, a, flag);
    var slot := Slot(a.subject, t);
    assert OrderedXmit(names, At(b, slot));
    NoteRuleEffect(names, At(b, slot), c.value.rule, key);
    CancelEffect(names, env, Heed(names, env, b, t, a, flag), t, a.subject, key, slot, key);
  }
}
