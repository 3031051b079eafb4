/** The two indexes of rules: by module the subjects it is interested in, and
    by subject the modules that are interested in it. */
module Interests {
  import opened Lists
  import opened Units
  import opened RuleTables
  import opened Transmission
  import opened Resync
  import opened Roles

  class Subject {
    const nbr: int
    const receivers: Option<seq<string>>
    var modules: seq<FanModule>

    constructor (nbr: int, receivers: Option<seq<string>>)
      ensures this.nbr == nbr && this.receivers == receivers && modules == []
    {
      this.nbr, this.receivers, modules := nbr, receivers, [];
    }
  }

  class SubjOfInterest {
    const subject: Subject
    var fan: FanModule?
    var subscriptions: seq<XmitRule>
    var invitations: seq<XmitRule>

    constructor (subject: Subject)
      ensures this.subject == subject && fan == null && subscriptions == [] && invitations == []
    {
      this.subject, fan, subscriptions, invitations := subject, null, [], [];
    }
  }

  class FanModule {
    const mod: Module
    const subj: SubjOfInterest

    constructor (mod: Module, subj: SubjOfInterest)
      ensures this.mod == mod && this.subj == subj
    {
      this.mod, this.subj := mod, subj;
    }
  }

  class Module {
    const unitNbr: nat
    const nbr: nat
    const role: string
    var points: seq<Endpoint>
    var subjects: seq<SubjOfInterest>

    constructor (unitNbr: nat, nbr: nat, role: string)
      ensures this.unitNbr == unitNbr && this.nbr == nbr && this.role == role && points == [] && subjects == []
    {
      this.unitNbr, this.nbr, this.role := unitNbr, nbr, role;
      points, subjects := [], [];
    }
  }

  // ---- The two indexes, as values ------------------------------------------------------------

  datatype Interest = Interest(fan: FanModule, subscriptions: seq<XmitRule>, invitations: seq<XmitRule>)

  datatype Web = Web(interests: map<Module, seq<SubjOfInterest>>, fans: map<Subject, seq<FanModule>>,
                     data: map<SubjOfInterest, Interest>)

  predicate Below(f: FanModule, unitNbr: nat, nbr: nat) {
    f.mod.unitNbr < unitNbr || (f.mod.unitNbr == unitNbr && f.mod.nbr < nbr)
  }

  predicate Above(f: FanModule, unitNbr: nat, nbr: nat) {
    f.mod.unitNbr > unitNbr || (f.mod.unitNbr == unitNbr && f.mod.nbr > nbr)
  }

  ghost predicate BySubject(s: seq<SubjOfInterest>) {
    forall i, j :: 0 <= i < j < |s| ==> s[i].subject.nbr < s[j].subject.nbr
  }

  ghost predicate ByModule(s: seq<FanModule>) {
    forall i, j :: 0 <= i < j < |s| ==> Below(s[i], s[j].mod.unitNbr, s[j].mod.nbr)
  }

  /** s is an interest of m, and the subject's index has it too. */
  ghost predicate HasFan(w: Web, m: Module, s: SubjOfInterest) {
    && s in w.data && s.subject in w.fans
    && w.data[s].fan.mod == m && w.data[s].fan.subj == s && w.data[s].fan in w.fans[s.subject]
  }

  /** f is a fan of u, and the module's index has it too. */
  ghost predicate HasInterest(w: Web, u: Subject, f: FanModule) {
    && f.mod in w.interests && f.subj in w.interests[f.mod]
    && f.subj.subject == u && f.subj in w.data && w.data[f.subj].fan == f
  }

  ghost predicate InterestsOk(w: Web, m: Module) {
    m in w.interests && BySubject(w.interests[m]) && forall s :: s in w.interests[m] ==> HasFan(w, m, s)
  }

  ghost predicate FansOk(w: Web, u: Subject) {
    u in w.fans && ByModule(w.fans[u]) && forall f :: f in w.fans[u] ==> HasInterest(w, u, f)
  }

  /** Numbers identify subjects and modules. */
  ghost predicate Identified(w: Web) {
    && (forall u, v :: u in w.fans && v in w.fans && u.nbr == v.nbr ==> u == v)
    && (forall m, n :: m in w.interests && n in w.interests && m.unitNbr == n.unitNbr && m.nbr == n.nbr
          ==> m == n)
  }

  ghost predicate Agree(w: Web) {
    && Identified(w)
    && (forall m :: m in w.interests ==> InterestsOk(w, m))
    && (forall u :: u in w.fans ==> FansOk(w, u))
  }

  /** r is m's interest in u, if it has one. */
  ghost predicate IsInterest(w: Web, m: Module, u: Subject, r: Option<SubjOfInterest>)
    requires m in w.interests
  {
    match r
    case Some(s) => s in w.interests[m] && s.subject == u
    case None => forall s :: s in w.interests[m] ==> s.subject != u
  }

  /** The two indexes answer alike: m has an interest in u exactly if u has a
      fan that is m, and it is the same interest. */
  lemma IndexesAgree(w: Web, m: Module, u: Subject)
    requires Agree(w) && m in w.interests && u in w.fans
    ensures forall s :: s in w.interests[m] && s.subject == u ==>
      exists f :: f in w.fans[u] && f.mod == m && f.subj == s
    ensures forall f :: f in w.fans[u] && f.mod == m ==> IsInterest(w, m, u, Some(f.subj))
  {
    assert InterestsOk(w, m) && FansOk(w, u);
    forall s | s in w.interests[m] && s.subject == u
      ensures exists f :: f in w.fans[u] && f.mod == m && f.subj == s {
      assert HasFan(w, m, s);
    }
    forall f | f in w.fans[u] && f.mod == m ensures IsInterest(w, m, u, Some(f.subj)) {
      assert HasInterest(w, u, f);
    }
  }

  // ---- Linking and unlinking -------------------------------------------------------------------

  /** Where m's interest in subject number n would go. */
  ghost predicate SubjGap(s: seq<SubjOfInterest>, n: int, k: nat) {
    && k <= |s| && (forall i :: 0 <= i < k ==> s[i].subject.nbr < n)
    && (forall i :: k <= i < |s| ==> s[i].subject.nbr > n)
  }

  ghost predicate FanGap(s: seq<FanModule>, m: Module, k: nat) {
    && k <= |s| && (forall i :: 0 <= i < k ==> Below(s[i], m.unitNbr, m.nbr))
    && (forall i :: k <= i < |s| ==> Above(s[i], m.unitNbr, m.nbr))
  }

  ghost function Link(w: Web, s: SubjOfInterest, f: FanModule, i: nat, k: nat): Web
    requires f.mod in w.interests && s.subject in w.fans
    requires i <= |w.interests[f.mod]| && k <= |w.fans[s.subject]|
  {
    Web(w.interests[f.mod := InsertAt(w.interests[f.mod], s, i)],
        w.fans[s.subject := InsertAt(w.fans[s.subject], f, k)],
        w.data[s := Interest(f, [], [])])
  }

  ghost predicate Linkable(w: Web, s: SubjOfInterest, f: FanModule, i: nat, k: nat) {
    && Agree(w) && f.subj == s && s !in w.data && f.mod in w.interests && s.subject in w.fans
    && SubjGap(w.interests[f.mod], s.subject.nbr, i) && FanGap(w.fans[s.subject], f.mod, k)
  }

  lemma LinkInterests(w: Web, s: SubjOfInterest, f: FanModule, i: nat, k: nat, m: Module)
    requires Linkable(w, s, f, i, k) && m in w.interests
    ensures InterestsOk(Link(w, s, f, i, k), m)
  {
    var w' := Link(w, s, f, i, k);
    assert InterestsOk(w, m);
    InsertAtElements(w.interests[f.mod], s, i);
    InsertAtElements(w.fans[s.subject], f, k);
    forall x | x in w'.interests[m] ensures HasFan(w', m, x) {
      if x in w.interests[m] { assert HasFan(w, m, x); }
    }
  }

  lemma LinkFans(w: Web, s: SubjOfInterest, f: FanModule, i: nat, k: nat, u: Subject)
    requires Linkable(w, s, f, i, k) && u in w.fans
    ensures FansOk(Link(w, s, f, i, k), u)
  {
    var w' := Link(w, s, f, i, k);
    assert FansOk(w, u);
    InsertAtElements(w.interests[f.mod], s, i);
    InsertAtElements(w.fans[s.subject], f, k);
    forall x | x in w'.fans[u] ensures HasInterest(w', u, x) {
      if x in w.fans[u] { assert HasInterest(w, u, x); }
    }
  }

  lemma LinkAgree(w: Web, s: SubjOfInterest, f: FanModule, i: nat, k: nat)
    requires Linkable(w, s, f, i, k)
    ensures Agree(Link(w, s, f, i, k))
  {
    var w' := Link(w, s, f, i, k);
    forall m | m in w'.interests ensures InterestsOk(w', m) {
      LinkInterests(w, s, f, i, k, m);
    }
    forall u | u in w'.fans ensures FansOk(w', u) {
      LinkFans(w, s, f, i, k, u);
    }
  }

  /** m loses its first interest, whose fan stands at p. */
  ghost function Unlink(w: Web, m: Module, p: nat): Web
    requires Unlinkable(w, m, p)
  {
    var u := w.interests[m][0].subject;
    Web(w.interests[m := w.interests[m][1..]], w.fans[u := DeleteAt(w.fans[u], p)], w.data)
  }

  ghost predicate Unlinkable(w: Web, m: Module, p: nat) {
    && Agree(w) && m in w.interests && w.interests[m] != [] && HasFan(w, m, w.interests[m][0])
    && var s := w.interests[m][0];
       p < |w.fans[s.subject]| && w.fans[s.subject][p] == w.data[s].fan
  }

  lemma UnlinkHasFan(w: Web, m: Module, p: nat, n: Module, x: SubjOfInterest)
    requires Unlinkable(w, m, p) && n in w.interests && x in Unlink(w, m, p).interests[n]
    ensures HasFan(Unlink(w, m, p), n, x)
  {
    var s := w.interests[m][0];
    assert w.interests[m] == [s] + w.interests[m][1..];
    assert InterestsOk(w, n) && InterestsOk(w, m);
    assert x in w.interests[n] && HasFan(w, n, x) && HasFan(w, m, s);
    assert x != s;
    DeleteAtElements(w.fans[s.subject], p);
  }

  lemma UnlinkInterests(w: Web, m: Module, p: nat, n: Module)
    requires Unlinkable(w, m, p) && n in w.interests
    ensures InterestsOk(Unlink(w, m, p), n)
  {
    var w' := Unlink(w, m, p);
    assert InterestsOk(w, n);
    forall x | x in w'.interests[n] ensures HasFan(w', n, x) {
      UnlinkHasFan(w, m, p, n, x);
    }
  }

  lemma UnlinkFans(w: Web, m: Module, p: nat, u: Subject)
    requires Unlinkable(w, m, p) && u in w.fans
    ensures FansOk(Unlink(w, m, p), u)
  {
    var w' := Unlink(w, m, p);
    assert FansOk(w, u) && InterestsOk(w, m);
    var s := w.interests[m][0];
    var fans := w.fans[s.subject];
    assert FansOk(w, s.subject) && HasFan(w, m, s);
    DeleteAtElements(fans, p);
    assert w.interests[m] == [s] + w.interests[m][1..];
    forall x | x in w'.fans[u] ensures HasInterest(w', u, x) {
      assert HasInterest(w, u, x);
      if u == s.subject {
        var j :| 0 <= j < |w'.fans[u]| && w'.fans[u][j] == x;
        assert x == fans[if j < p then j else j + 1];
        assert x != fans[p];
      }
    }
  }

  lemma UnlinkAgree(w: Web, m: Module, p: nat)
    requires Unlinkable(w, m, p)
    ensures Agree(Unlink(w, m, p))
  {
    var w' := Unlink(w, m, p);
    forall n | n in w'.interests ensures InterestsOk(w', n) {
      UnlinkInterests(w, m, p, n);
    }
    forall u | u in w'.fans ensures FansOk(w', u) {
      UnlinkFans(w, m, p, u);
    }
  }

  // ---- The rules in the index ------------------------------------------------------------------

  function RulesOf(i: Interest, t: RuleType): seq<XmitRule> {
    if t == Subscription then i.subscriptions else i.invitations
  }

  ghost predicate Uninterested(s: seq<SubjOfInterest>, n: int) {
    forall x :: x in s ==> x.subject.nbr != n
  }

  /** The index has the rules of book b for module m. */
  ghost predicate Records(w: Web, m: Module, b: Book) {
    && m in w.interests
    && (forall s :: s in w.interests[m] ==> Shown(w, b, s))
    && (forall n :: Uninterested(w.interests[m], n) ==> Blank(b, n))
  }

  ghost predicate Shown(w: Web, b: Book, s: SubjOfInterest) {
    && s in w.data
    && w.data[s].subscriptions == At(b, Slot(s.subject.nbr, Subscription))
    && w.data[s].invitations == At(b, Slot(s.subject.nbr, Invitation))
  }

  ghost predicate Blank(b: Book, n: int) {
    At(b, Slot(n, Subscription)) == [] && At(b, Slot(n, Invitation)) == []
  }

  /** Nothing about module m has changed. */
  ghost predicate SameFor(w: Web, w': Web, m: Module) {
    && m in w.interests && m in w'.interests && w'.interests[m] == w.interests[m]
    && forall s :: s in w.interests[m] ==> s in w.data && s in w'.data && w'.data[s] == w.data[s]
  }

  lemma LinkRecords(w: Web, s: SubjOfInterest, f: FanModule, i: nat, k: nat, m: Module, b: Book)
    requires Linkable(w, s, f, i, k) && Records(w, m, b)
    ensures Records(Link(w, s, f, i, k), m, b)
  {
    var w' := Link(w, s, f, i, k);
    InsertAtElements(w.interests[f.mod], s, i);
    assert InterestsOk(w, m);
    assert forall x :: x in w.interests[m] ==> HasFan(w, m, x) && x != s;
    if m == f.mod {
      assert Uninterested(w.interests[m], s.subject.nbr);
    }
    forall x | x in w'.interests[m] ensures Shown(w', b, x) {
      if x != s { assert Shown(w, b, x); }
    }
    forall n | Uninterested(w'.interests[m], n) ensures Blank(b, n) {
      assert Uninterested(w.interests[m], n);
    }
  }

  lemma LinkSame(w: Web, s: SubjOfInterest, f: FanModule, i: nat, k: nat, m: Module)
    requires Linkable(w, s, f, i, k) && m in w.interests && m != f.mod
    ensures SameFor(w, Link(w, s, f, i, k), m)
  {
    assert InterestsOk(w, m);
    assert forall x :: x in w.interests[m] ==> HasFan(w, m, x) && x != s;
  }

  /** Interest s gets a new list of rules. */
  ghost function Rewrite(w: Web, s: SubjOfInterest, t: RuleType, rules: seq<XmitRule>): Web
    requires s in w.data
  {
    Web(w.interests, w.fans,
        w.data[s := if t == Subscription then w.data[s].(subscriptions := rules)
                    else w.data[s].(invitations := rules)])
  }

  lemma RewriteAgree(w: Web, s: SubjOfInterest, t: RuleType, rules: seq<XmitRule>)
    requires Agree(w) && s in w.data
    ensures Agree(Rewrite(w, s, t, rules))
  {
    var w' := Rewrite(w, s, t, rules);
    forall m | m in w'.interests ensures InterestsOk(w', m) {
      assert InterestsOk(w, m);
      forall x | x in w'.interests[m] ensures HasFan(w', m, x) { assert HasFan(w, m, x); }
    }
    forall u | u in w'.fans ensures FansOk(w', u) {
      assert FansOk(w, u);
      forall f | f in w'.fans[u] ensures HasInterest(w', u, f) { assert HasInterest(w, u, f); }
    }
  }

  lemma RewriteRecords(w: Web, m: Module, b: Book, s: SubjOfInterest, t: RuleType, rules: seq<XmitRule>)
    requires Agree(w) && Records(w, m, b) && s in w.interests[m]
    ensures s in w.data && Records(Rewrite(w, s, t, rules), m, b[Slot(s.subject.nbr, t) := rules])
  {
    assert InterestsOk(w, m);
    var b', w' := b[Slot(s.subject.nbr, t) := rules], Rewrite(w, s, t, rules);
    forall x | x in w'.interests[m] ensures Shown(w', b', x) {
      assert Shown(w, b, x);
      assert x.subject.nbr == s.subject.nbr ==> x == s;
    }
    forall n | Uninterested(w'.interests[m], n) ensures Blank(b', n) {
      assert Blank(b, n);
    }
  }

  /** No other module has this interest. */
  lemma RewriteOthers(w: Web, m: Module, s: SubjOfInterest, t: RuleType, rules: seq<XmitRule>, n: Module)
    requires Agree(w) && m in w.interests && s in w.interests[m] && n in w.interests && n != m
    ensures s in w.data && SameFor(w, Rewrite(w, s, t, rules), n)
  {
    assert InterestsOk(w, m) && InterestsOk(w, n);
    assert HasFan(w, m, s);
    forall x | x in w.interests[n] ensures x != s { assert HasFan(w, n, x); }
  }

  lemma SameRecords(w: Web, w': Web, m: Module, b: Book)
    requires SameFor(w, w', m) && Records(w, m, b)
    ensures Records(w', m, b)
  {
    forall s | s in w'.interests[m] ensures Shown(w', b, s) {
      assert Shown(w, b, s);
    }
  }

  ghost predicate OthersSame(w: Web, w': Web, m: Module) {
    forall n :: n in w.interests && n != m ==> SameFor(w, w', n)
  }

  // ---- The records themselves ------------------------------------------------------------------

  class Mib {
    const names: Names
    const subjectAt: map<int, Subject>
    ghost var web: Web

    ghost predicate Valid()
      reads this, web.interests.Keys, web.fans.Keys, web.data.Keys
    {
      Agree(web) && UniqueNames(names) && Numbered() && Stored()
    }

    /** The subjects are known by their numbers. */
    ghost predicate Numbered()
      reads this
    {
      && 0 in subjectAt
      && (forall n :: n in subjectAt ==>
            subjectAt[n].nbr == n && subjectAt[n] in web.fans && InOrder(subjectAt[n].receivers))
      && (forall u :: u in web.fans ==> u.nbr in subjectAt && subjectAt[u.nbr] == u)
    }

    /** The objects hold what web says. */
    ghost predicate Stored()
      reads this, web.interests.Keys, web.fans.Keys, web.data.Keys
    {
      && (forall m :: m in web.interests ==> m.subjects == web.interests[m])
      && (forall u :: u in web.fans ==> u.modules == web.fans[u])
      && (forall s :: s in web.data ==>
            && s.fan == web.data[s].fan
            && s.subscriptions == web.data[s].subscriptions && s.invitations == web.data[s].invitations)
    }

    /** Subjects and modules are known from the start; no module has any interest yet. */
    constructor (names: Names, subjectAt: map<int, Subject>, modules: set<Module>)
      requires UniqueNames(names) && 0 in subjectAt && forall n :: n in subjectAt ==> subjectAt[n].nbr == n
      requires forall n :: n in subjectAt ==> subjectAt[n].modules == [] && InOrder(subjectAt[n].receivers)
      requires forall m :: m in modules ==> m.subjects == []
      requires forall m, n :: m in modules && n in modules && m.unitNbr == n.unitNbr && m.nbr == n.nbr ==> m == n
      ensures Valid() && web.interests.Keys == modules && this.names == names && this.subjectAt == subjectAt
    {
      this.names, this.subjectAt := names, subjectAt;
      ghost var known := set n | n in subjectAt :: subjectAt[n];
      web := Web(map m | m in modules :: [], map u | u in known :: [], map[]);
    }

    method FindSubjOfInterest(mod: Module, subject: Subject) returns (found: bool, k: nat)
      requires BySubject(mod.subjects)
      ensures found ==> k < |mod.subjects| && mod.subjects[k].subject.nbr == subject.nbr
      ensures !found ==> SubjGap(mod.subjects, subject.nbr, k)
    {
      k := 0;
      while k < |mod.subjects| && mod.subjects[k].subject.nbr < subject.nbr
        invariant k <= |mod.subjects|
        invariant forall i :: 0 <= i < k ==> mod.subjects[i].subject.nbr < subject.nbr
      {
        k := k + 1;
      }
      found := k < |mod.subjects| && mod.subjects[k].subject.nbr == subject.nbr;
    }

    method FindFanModule(subject: Subject, mod: Module) returns (found: bool, k: nat)
      requires ByModule(subject.modules)
      ensures found ==> k < |subject.modules| && subject.modules[k].mod.unitNbr == mod.unitNbr
      ensures found ==> subject.modules[k].mod.nbr == mod.nbr
      ensures !found ==> FanGap(subject.modules, mod, k)
    {
      k := 0;
      while k < |subject.modules| && Below(subject.modules[k], mod.unitNbr, mod.nbr)
        invariant k <= |subject.modules|
        invariant forall i :: 0 <= i < k ==> Below(subject.modules[i], mod.unitNbr, mod.nbr)
      {
        k := k + 1;
      }
      found := k < |subject.modules| && !Above(subject.modules[k], mod.unitNbr, mod.nbr);
    }

    method NewInterest(mod: Module, subject: Subject) returns (subj: SubjOfInterest, fan: FanModule)
      ensures fresh(subj) && subj.subject == subject && subj.subscriptions == [] && subj.invitations == []
      ensures fresh(fan) && fan.mod == mod && fan.subj == subj && subj.fan == fan
    {
      subj := new SubjOfInterest(subject);
      fan := new FanModule(mod, subj);
      subj.fan := fan;
    }

    method Connect(mod: Module, subj: SubjOfInterest, fan: FanModule, k: nat, j: nat)
      requires Stored() && Linkable(web, subj, fan, k, j) && fan.mod == mod
      requires subj.fan == fan && subj.subscriptions == [] && subj.invitations == []
      modifies this`web, mod`subjects, subj.subject`modules
      ensures Stored() && web == Link(old(web), subj, fan, k, j)
    {
      mod.subjects := InsertAt(mod.subjects, subj, k);
      subj.subject.modules := InsertAt(subj.subject.modules, fan, j);
      web := Link(web, subj, fan, k, j);
    }

    /** A new interest is entered in both indexes. */
    method Enter(mod: Module, subject: Subject, k: nat, j: nat) returns (subj: SubjOfInterest, fan: FanModule)
      requires Valid() && mod in web.interests && subject in web.fans
      requires SubjGap(mod.subjects, subject.nbr, k) && FanGap(subject.modules, mod, j)
      modifies this`web, mod`subjects, subject`modules
      ensures Valid() && fresh(subj) && subj.subject == subject
      ensures forall s :: s in web.data ==> s in old(web.data) || fresh(s)
      ensures fan.mod == mod && Linkable(old(web), subj, fan, k, j) && web == Link(old(web), subj, fan, k, j)
    {
      subj, fan := NewInterest(mod, subject);
      LinkAgree(web, subj, fan, k, j);
      Connect(mod, subj, fan, k, j);
    }

    /** The first half of noteAssertion: the module's interest in the subject,
        made and entered in both indexes if there is none. */
    method InterestIn(mod: Module, subject: Subject, ghost b: Book) returns (subj: SubjOfInterest)
      requires Valid() && subject in web.fans && Records(web, mod, b)
      modifies this`web, mod`subjects, subject`modules
      ensures Valid()
      ensures subj in web.data && forall s :: s in web.data ==> s in old(web.data) || fresh(s)
      ensures IsInterestIn(old(web), web, mod, subject, subj, b)
    {
      assert InterestsOk(web, mod) && FansOk(web, subject);
      var found, k := FindSubjOfInterest(mod, subject);
      if found {
        subj := mod.subjects[k];
        assert HasFan(web, mod, subj);
        return;
      }
      var fanFound, j := FindFanModule(subject, mod);
      assert fanFound ==> HasInterest(web, subject, subject.modules[j]);
      if fanFound {
        assert false;
      }
      ghost var w := web;
      var fan;
      subj, fan := Enter(mod, subject, k, j);
      LinkIsIn(w, subj, fan, k, j, b);
    }

    method SetList(subj: SubjOfInterest, t: RuleType, rules: seq<XmitRule>)
      requires Stored() && subj in web.data
      modifies this`web, subj`subscriptions, subj`invitations
      ensures Stored() && web == Rewrite(old(web), subj, t, rules)
    {
      if t == Subscription { subj.subscriptions := rules; } else { subj.invitations := rules; }
      web := Rewrite(web, subj, t, rules);
    }

    /** The second half of noteAssertion: marks, replaces or inserts the rule. */
    method NoteInList(rules: seq<XmitRule>, rule: XmitRule) returns (r: seq<XmitRule>)
      requires UniqueNames(names) && OrderedXmit(names, rules)
      ensures r == NoteRule(names, rules, rule)
    {
      var found, k := FindXmitRule(names, rules, XmitKey(rule));
      if !found { return InsertAt(rules, rule, k); }
      var was := rules[k];
      if was.point == rule.point && was.priority == rule.priority && was.flowLabel == rule.flowLabel {
        return rules[k := was.(confirmed := was.confirmed || rule.confirmed)];
      }
      return InsertAt(DeleteAt(rules, k), rule, k);
    }

    method Revise(subj: SubjOfInterest, t: RuleType, rule: XmitRule)
      requires Valid() && subj in web.data
      requires OrderedXmit(names, RulesOf(web.data[subj], t))
      modifies this`web, subj`subscriptions, subj`invitations
      ensures Valid()
      ensures web == Rewrite(old(web), subj, t, NoteRule(names, RulesOf(old(web).data[subj], t), rule))
    {
      var r := NoteInList(if t == Subscription then subj.subscriptions else subj.invitations, rule);
      RewriteAgree(web, subj, t, r);
      SetList(subj, t, r);
    }

    /** env says what bears on mod's assertions. */
    ghost predicate Describes(env: Receiver, mod: Module)
      reads mod
    {
      && env.points == mod.points && (forall n :: n in env.known <==> n in subjectAt && n != 0)
      && forall n :: n in subjectAt ==> (n in env.authorized <==> Permitted(subjectAt[n].receivers, mod.role))
    }

    method Enlist(mod: Module, subject: Subject, t: RuleType, rule: XmitRule, ghost b: Book)
      requires Valid() && Records(web, mod, b) && subject in web.fans
      requires OrderedXmit(names, At(b, Slot(subject.nbr, t)))
      modifies this`web, mod`subjects, subject`modules, web.data.Keys
      ensures Valid() && Records(web, mod, Note(names, b, t, Claim(subject.nbr, rule)))
      ensures Since(old(web), web, mod) && forall s :: s in web.data ==> s in old(web.data) || fresh(s)
    {
      ghost var w := web;
      var subj := InterestIn(mod, subject, b);
      assert Shown(web, b, subj);
      NotedWeb(w, web, mod, subject, subj, b, t, Claim(subject.nbr, rule), names);
      Revise(subj, t, rule);
    }

    /** The rule of an assertion that says a, or as the domain continuum says,
        and is met at point. */
    method NoteAssertion(mod: Module, subject: Subject, t: RuleType, a: Assertion, continuum: nat, point: Endpoint,
                         flag: bool, ghost b: Book)
      requires Valid() && Records(web, mod, b) && subject in web.fans
      requires OrderedXmit(names, At(b, Slot(subject.nbr, t)))
      modifies this`web, mod`subjects, subject`modules, web.data.Keys
      ensures var rule := Entitled(a, continuum, point, Permitted(subject.receivers, mod.role), flag);
        Valid() && Records(web, mod, Note(names, b, t, Claim(subject.nbr, rule)))
      ensures Since(old(web), web, mod) && forall s :: s in web.data ==> s in old(web.data) || fresh(s)
    {
      assert subject == subjectAt[subject.nbr];
      var okay := MayReceive(subject.receivers, mod.role);
      Enlist(mod, subject, t, Entitled(a, continuum, point, okay, flag), b);
    }

    method FindPoint(points: seq<Endpoint>, vector: nat) returns (r: Option<Endpoint>)
      ensures r == PointOf(points, vector)
    {
      var k := 0;
      while k < |points| && points[k].vector < vector
        invariant k <= |points| && PointOf(points, vector) == PointOf(points[k..], vector)
      {
        k := k + 1;
      }
      r := if k == |points| || points[k].vector > vector then None else Some(points[k]);
    }

    /** The checks of processAssertion: the domain continuum that counts, and
        the point at which the messages can be delivered. */
    method Understand(mod: Module, env: Receiver, t: RuleType, a: Assertion, ghost flag: bool)
      returns (continuum: nat, point: Option<Endpoint>)
      requires Describes(env, mod) && 0 in subjectAt
      ensures point.None? <==> Understood(env, t, a, flag).None?
      ensures point.Some? ==> a.subject in subjectAt
      ensures point.Some? ==>
        Understood(env, t, a, flag) ==
        Some(Claim(a.subject, Entitled(a, continuum, point.value, a.subject in env.authorized, flag)))
    {
      continuum, point := a.continuum, None;
      if a.subject == 0 {
        if t == Subscription && continuum != env.local { return; }
        continuum := env.local;
      } else if a.subject !in subjectAt {
        return;
      }
      point := FindPoint(mod.points, a.vector);
    }

    method ProcessAssertion(mod: Module, env: Receiver, t: RuleType, a: Assertion, flag: bool, ghost b: Book)
      requires Valid() && Describes(env, mod) && Records(web, mod, b) && Regular(names, env, b)
      modifies this`web, mod`subjects, web.fans.Keys, web.data.Keys
      ensures Valid() && Records(web, mod, Heed(names, env, b, t, a, flag))
      ensures Since(old(web), web, mod) && forall s :: s in web.data ==> s in old(web.data) || fresh(s)
    {
      var continuum, point := Understand(mod, env, t, a, flag);
      if point.None? {
        SameSince(web, mod);
        return;
      }
      assert OrderedXmit(names, At(b, Slot(a.subject, t)));
      NoteAssertion(mod, subjectAt[a.subject], t, a, continuum, point.value, flag, b);
    }

    method HeedNext(mod: Module, env: Receiver, t: RuleType, asserted: seq<Assertion>, k: nat, flag: bool,
                    ghost b: Book, ghost w: Web)
      requires Valid() && Describes(env, mod) && Regular(names, env, b) && k < |asserted|
      requires Records(web, mod, HeedAll(names, env, b, t, asserted[..k], flag)) && Since(w, web, mod)
      modifies this`web, mod`subjects, web.fans.Keys, web.data.Keys
      ensures Valid() && Since(w, web, mod) && forall s :: s in web.data ==> s in old(web.data) || fresh(s)
      ensures Records(web, mod, HeedAll(names, env, b, t, asserted[..k+1], flag))
    {
      ghost var w1 := web;
      HeedAllRegular(names, env, b, t, asserted[..k], flag);
      HeedAllNext(names, env, b, t, asserted, k, flag);
      ProcessAssertion(mod, env, t, asserted[k], flag, HeedAll(names, env, b, t, asserted[..k], flag));
      SinceTwice(w, w1, web, mod);
    }

    method HeedList(mod: Module, env: Receiver, t: RuleType, asserted: seq<Assertion>, flag: bool, ghost b: Book)
      requires Valid() && Describes(env, mod) && Records(web, mod, b) && Regular(names, env, b)
      modifies this`web, mod`subjects, web.fans.Keys, web.data.Keys
      ensures Valid() && Records(web, mod, HeedAll(names, env, b, t, asserted, flag))
      ensures Since(old(web), web, mod) && forall s :: s in web.data ==> s in old(web.data) || fresh(s)
    {
      ghost var w := web;
      SameSince(w, mod);
      for k := 0 to |asserted|
        invariant Valid() && Since(w, web, mod) && forall s :: s in web.data ==> s in w.data || fresh(s)
        invariant Records(web, mod, HeedAll(names, env, b, t, asserted[..k], flag))
      {
        HeedNext(mod, env, t, asserted, k, flag, b, w);
      }
      assert asserted[..|asserted|] == asserted;
    }

    method ProcessDeclaration(mod: Module, env: Receiver, d: Declaration, flag: bool,
                              ghost b: Book)
      requires Valid() && Describes(env, mod) && Records(web, mod, b) && Regular(names, env, b)
      modifies this`web, mod`subjects, web.fans.Keys, web.data.Keys
      ensures Valid() && Records(web, mod, Declare(names, env, b, d, flag))
      ensures Since(old(web), web, mod) && forall s :: s in web.data ==> s in old(web.data) || fresh(s)
    {
      ghost var w := web;
      assert d.subscriptions == Listed(d, Subscription) && d.invitations == Listed(d, Invitation);
      HeedList(mod, env, Subscription, d.subscriptions, flag, b);
      ghost var w1 := web;
      ghost var b1 := HeedAll(names, env, b, Subscription, d.subscriptions, flag);
      HeedAllRegular(names, env, b, Subscription, d.subscriptions, flag);
      HeedList(mod, env, Invitation, d.invitations, flag, b1);
      SinceTwice(w, w1, web, mod);
    }

    method SweepList(rules: seq<XmitRule>) returns (r: seq<XmitRule>)
      ensures r == SweepRules(rules)
    {
      r := [];
      for k := 0 to |rules|
        invariant r == SweepRules(rules[..k])
      {
        assert rules[..k+1][..k] == rules[..k];
        if rules[k].confirmed { r := r + [rules[k].(confirmed := false)]; }
      }
      assert rules[..|rules|] == rules;
    }

    /** One of mod's lists is replaced. */
    method Replace(mod: Module, subj: SubjOfInterest, t: RuleType, rules: seq<XmitRule>, ghost b: Book)
      requires Valid() && Records(web, mod, b) && subj in web.interests[mod]
      modifies this`web, subj`subscriptions, subj`invitations
      ensures Valid() && Since(old(web), web, mod) && web.interests == old(web.interests)
      ensures web.data.Keys == old(web.data.Keys)
      ensures Records(web, mod, b[Slot(subj.subject.nbr, t) := rules])
    {
      assert InterestsOk(web, mod) && HasFan(web, mod, subj);
      RewriteRecords(web, mod, b, subj, t, rules);
      SameSince(web, mod);
      NoteOthers(web, web, mod, subj, t, rules);
      RewriteAgree(web, subj, t, rules);
      SetList(subj, t, rules);
    }

    method SweepInterest(mod: Module, subj: SubjOfInterest, t: RuleType, ghost b: Book)
      requires Valid() && Records(web, mod, b) && subj in web.interests[mod]
      modifies this`web, subj`subscriptions, subj`invitations
      ensures Valid() && Since(old(web), web, mod) && web.interests == old(web.interests)
      ensures web.data.Keys == old(web.data.Keys)
      ensures Records(web, mod, SweptAt(b, Slot(subj.subject.nbr, t)))
    {
      assert Shown(web, b, subj);
      var r := SweepList(if t == Subscription then subj.subscriptions else subj.invitations);
      Replace(mod, subj, t, r, b);
    }

    method CancelUnconfirmedAssertions(mod: Module, ghost b: Book)
      requires Valid() && Records(web, mod, b)
      modifies this`web, web.data.Keys
      ensures Valid() && Since(old(web), web, mod)
      ensures Records(web, mod, Sweep(b))
    {
      ghost var w, c := web, b;
      var subjects := mod.subjects;
      SameSince(web, mod);
      for k := 0 to |subjects|
        invariant Valid() && Since(w, web, mod) && web.interests == w.interests
        invariant web.data.Keys == w.data.Keys
        invariant Records(web, mod, c) && SweptTo(b, c, subjects, k)
      {
        var subj := subjects[k];
        ghost var w1, n := web, subj.subject.nbr;
        assert subj in web.interests[mod];
        SweepInterest(mod, subj, Subscription, c);
        ghost var w2 := web;
        SweepInterest(mod, subj, Invitation, SweptAt(c, Slot(n, Subscription)));
        SinceTwice(w1, w2, web, mod);
        SinceTwice(w, w1, web, mod);
        assert InterestsOk(w, mod);
        SweptFurther(b, c, subjects, k);
        c := SweptAt(SweptAt(c, Slot(n, Subscription)), Slot(n, Invitation));
      }
      SweptAll(w, web, mod, b, c);
    }

    /** The handling of a declaration that replaces what is known. */
    method Resynchronize(mod: Module, env: Receiver, d: Declaration, ghost b: Book) returns (ghost final: Book)
      requires Valid() && Describes(env, mod) && Records(web, mod, b) && Regular(names, env, b) && Unconfirmed(b)
      modifies this`web, mod`subjects, web.fans.Keys, web.data.Keys
      ensures Valid() && Since(old(web), web, mod)
      ensures Records(web, mod, final) && Regular(names, env, final) && Unconfirmed(final)
      ensures forall slot, key :: ExactAt(env, final, d, slot, key)
      ensures Ascending(env.points) ==> forall slot, key :: AsDeclared(env, final, d, slot, key)
    {
      ghost var w := web;
      ResyncIsExact(names, env, b, d);
      if Ascending(env.points) { ResyncIsAsDeclared(names, env, b, d); }
      final := Sweep(Declare(names, env, b, d, true));
      ProcessDeclaration(mod, env, d, true, b);
      ghost var w1 := web;
      CancelUnconfirmedAssertions(mod, Declare(names, env, b, d, true));
      SinceTwice(w, w1, web, mod);
    }

    method StruckFrom(rules: seq<XmitRule>, key: Key) returns (r: seq<XmitRule>)
      requires UniqueNames(names) && OrderedXmit(names, rules) && key.subject == 0
      ensures r == RemoveRule(names, rules, key)
    {
      var found, k := FindXmitRule(names, rules, key);
      r := if found then DeleteAt(rules, k) else rules;
    }

    method Withdraw(mod: Module, subj: SubjOfInterest, t: RuleType, key: Key, ghost b: Book)
      requires Valid() && Records(web, mod, b) && subj in web.interests[mod] && key.subject == 0
      requires OrderedXmit(names, At(b, Slot(subj.subject.nbr, t)))
      modifies this`web, subj`subscriptions, subj`invitations
      ensures Valid() && Since(old(web), web, mod)
      ensures var slot := Slot(subj.subject.nbr, t);
        Records(web, mod, b[slot := RemoveRule(names, At(b, slot), key)])
    {
      assert Shown(web, b, subj);
      var r := StruckFrom(if t == Subscription then subj.subscriptions else subj.invitations, key);
      Replace(mod, subj, t, r, b);
    }

    method ProcessCancellation(mod: Module, env: Receiver, t: RuleType, nbr: int, key: Key, ghost b: Book)
      requires Valid() && Describes(env, mod) && Records(web, mod, b) && Regular(names, env, b) && key.subject == 0
      modifies this`web, web.data.Keys
      ensures Valid() && Since(old(web), web, mod)
      ensures Records(web, mod, Cancel(names, env, b, t, nbr, key))
    {
      SameSince(web, mod);
      if nbr == 0 {
        if t == Invitation || key.continuum != env.local { return; }
      } else if nbr !in subjectAt {
        return;
      }
      assert Cancellable(env, t, nbr, key.continuum);
      assert OrderedXmit(names, At(b, Slot(nbr, t))) && InterestsOk(web, mod);
      var found, k := FindSubjOfInterest(mod, subjectAt[nbr]);
      if found {
        assert HasFan(web, mod, mod.subjects[k]);
        Withdraw(mod, mod.subjects[k], t, key, b);
      } else {
        NothingToCancel(names, env, web, mod, b, t, nbr, key);
      }
    }

    /** Where a fan stands in its subject's list. */
    method Locate(subject: Subject, fan: FanModule) returns (p: nat)
      requires fan in subject.modules
      ensures p < |subject.modules| && subject.modules[p] == fan
    {
      p := 0;
      while p < |subject.modules| && subject.modules[p] != fan
        invariant p <= |subject.modules| && fan !in subject.modules[..p]
      {
        p := p + 1;
      }
      assert subject.modules[..|subject.modules|] == subject.modules;
    }

    method Disconnect(mod: Module, p: nat)
      requires Stored() && Unlinkable(web, mod, p)
      modifies this`web, mod`subjects, web.interests[mod][0].subject`modules
      ensures Stored() && web == Unlink(old(web), mod, p)
    {
      var subject := mod.subjects[0].subject;
      mod.subjects := mod.subjects[1..];
      subject.modules := DeleteAt(subject.modules, p);
      web := Unlink(web, mod, p);
    }

    /** destroySubjOfInterest, for a module's first interest. */
    method DropFirst(mod: Module)
      requires Valid() && mod in web.interests && mod.subjects != []
      modifies this`web, mod`subjects, web.fans.Keys
      ensures Valid() && Since(old(web), web, mod) && web.data == old(web.data)
      ensures mod.subjects == old(mod.subjects)[1..]
    {
      var subj := mod.subjects[0];
      assert InterestsOk(web, mod) && HasFan(web, mod, subj);
      var p := Locate(subj.subject, subj.fan);
      UnlinkOthers(web, mod, p);
      UnlinkAgree(web, mod, p);
      Disconnect(mod, p);
    }

    method DropAll(mod: Module)
      requires Valid() && mod in web.interests
      modifies this`web, mod`subjects, web.fans.Keys
      ensures Valid() && Since(old(web), web, mod) && web.interests[mod] == []
    {
      ghost var w := web;
      SameSince(w, mod);
      while mod.subjects != []
        invariant Valid() && Since(w, web, mod)
        decreases |mod.subjects|
      {
        ghost var w1 := web;
        DropFirst(mod);
        SinceTwice(w, w1, web, mod);
      }
    }

    method DropPoints(mod: Module)
      requires Valid()
      modifies mod`points
      ensures Valid() && mod.points == []
    {
      mod.points := [];
    }

    method ForgetModule(mod: Module)
      requires Valid() && mod in web.interests
      modifies this`web, mod`subjects, mod`points, web.fans.Keys
      ensures Valid() && Since(old(web), web, mod) && mod.subjects == [] && mod.points == []
      ensures Forgotten(web, mod)
    {
      DropPoints(mod);
      DropAll(mod);
      NoFans(web, mod);
    }

    /** The search of sendMsg for a module's interest in a subject, through
        whichever index is shorter, with recourse to all subjects. */
    method SelectInterest(mod: Module, subject: Subject) returns (r: Option<SubjOfInterest>)
      requires Valid() && mod in web.interests && subject in web.fans
      ensures Selects(web, mod, subject, subjectAt[0], r)
    {
      if |mod.subjects| < |subject.modules| {
        r := ByModuleIndex(mod, subject);
        if r.None? && subject.nbr > 0 { r := ByModuleIndex(mod, subjectAt[0]); }
      } else {
        r := BySubjectIndex(mod, subject);
        if r.None? && subject.nbr > 0 { r := BySubjectIndex(mod, subjectAt[0]); }
      }
    }

    method ByModuleIndex(mod: Module, subject: Subject) returns (r: Option<SubjOfInterest>)
      requires Valid() && mod in web.interests && subject in web.fans
      ensures IsInterest(web, mod, subject, r)
    {
      assert InterestsOk(web, mod);
      var found, k := FindSubjOfInterest(mod, subject);
      assert found ==> HasFan(web, mod, mod.subjects[k]);
      r := if found then Some(mod.subjects[k]) else None;
    }

    method BySubjectIndex(mod: Module, subject: Subject) returns (r: Option<SubjOfInterest>)
      requires Valid() && mod in web.interests && subject in web.fans
      ensures IsInterest(web, mod, subject, r)
    {
      assert FansOk(web, subject);
      IndexesAgree(web, mod, subject);
      var found, k := FindFanModule(subject, mod);
      assert found ==> HasInterest(web, subject, subject.modules[k]);
      r := if found then Some(subject.modules[k].subj) else None;
    }
  }

  /** r is m's interest in u, or else, for an ordinary subject, in all subjects. */
  ghost predicate Selects(w: Web, m: Module, u: Subject, all: Subject, r: Option<SubjOfInterest>)
    requires m in w.interests
  {
    if exists s :: s in w.interests[m] && s.subject == u then IsInterest(w, m, u, r)
    else if u.nbr > 0 then IsInterest(w, m, all, r)
    else r.None?
  }

  /** Some interest is found exactly if m has one in u, or u is an ordinary
      subject and m has one in all subjects; and one in u is preferred. */
  lemma SelectedExactly(w: Web, m: Module, u: Subject, all: Subject, r: Option<SubjOfInterest>)
    requires m in w.interests && Selects(w, m, u, all, r)
    ensures r.Some? <==> exists s :: s in w.interests[m] && (s.subject == u || (u.nbr > 0 && s.subject == all))
    ensures r.Some? ==> r.value in w.interests[m]
    ensures r.Some? && r.value.subject != u ==>
      r.value.subject == all && u.nbr > 0 && forall s :: s in w.interests[m] ==> s.subject != u
  {
  }

  /** There is only one answer. */
  lemma SelectsOne(w: Web, m: Module, u: Subject, all: Subject, r: Option<SubjOfInterest>, q: Option<SubjOfInterest>)
    requires Agree(w) && m in w.interests && Selects(w, m, u, all, r) && Selects(w, m, u, all, q)
    ensures r == q
  {
    assert InterestsOk(w, m);
  }

  function Entitled(a: Assertion, continuum: nat, point: Endpoint, okay: bool, flag: bool): XmitRule {
    XmitRule(a.role, continuum, a.unit, a.priority, a.flowLabel, point, okay, flag)
  }

  /** m has no rules and is in no subject's index. */
  ghost predicate Forgotten(w: Web, m: Module) {
    Records(w, m, map[]) && forall u, f :: u in w.fans && f in w.fans[u] ==> f.mod != m
  }

  lemma NoFans(w: Web, m: Module)
    requires Agree(w) && m in w.interests && w.interests[m] == []
    ensures Forgotten(w, m)
  {
    forall u, f | u in w.fans && f in w.fans[u] ensures f.mod != m {
      assert FansOk(w, u) && HasInterest(w, u, f);
    }
  }

  lemma UnlinkOthers(w: Web, m: Module, p: nat)
    requires Unlinkable(w, m, p)
    ensures Since(w, Unlink(w, m, p), m)
  {
    SameSince(w, m);
    forall n | n in w.interests && n != m ensures SameFor(w, Unlink(w, m, p), n) {
      assert SameFor(w, w, n);
    }
  }

  ghost function SweptAt(b: Book, slot: Slot): Book {
    b[slot := SweepRules(At(b, slot))]
  }

  ghost predicate Among(s: seq<SubjOfInterest>, k: nat, n: int) {
    exists i :: 0 <= i < k && i < |s| && s[i].subject.nbr == n
  }

  /** c is b with the rules of the first k subjects swept. */
  ghost predicate SweptTo(b: Book, c: Book, s: seq<SubjOfInterest>, k: nat) {
    forall slot :: At(c, slot) == if Among(s, k, slot.subject) then SweepRules(At(b, slot)) else At(b, slot)
  }

  lemma SweptFurther(b: Book, c: Book, s: seq<SubjOfInterest>, k: nat)
    requires SweptTo(b, c, s, k) && BySubject(s) && k < |s|
    ensures var n := s[k].subject.nbr;
      SweptTo(b, SweptAt(SweptAt(c, Slot(n, Subscription)), Slot(n, Invitation)), s, k + 1)
  {
    var n := s[k].subject.nbr;
    forall m ensures Among(s, k + 1, m) <==> Among(s, k, m) || m == n {
      if m == n { assert s[k].subject.nbr == m; }
    }
    assert !Among(s, k, n);
    var c' := SweptAt(SweptAt(c, Slot(n, Subscription)), Slot(n, Invitation));
    forall slot: Slot
      ensures At(c', slot) == if Among(s, k + 1, slot.subject) then SweepRules(At(b, slot)) else At(b, slot) {
      assert At(c, slot) == if Among(s, k, slot.subject) then SweepRules(At(b, slot)) else At(b, slot);
      assert slot == Slot(slot.subject, slot.t);
      assert slot.t == Subscription || slot.t == Invitation;
    }
  }

  lemma SameBook(w: Web, m: Module, b: Book, c: Book)
    requires Records(w, m, b) && forall slot :: At(b, slot) == At(c, slot)
    ensures Records(w, m, c)
  {
    forall s | s in w.interests[m] ensures Shown(w, c, s) {
      assert Shown(w, b, s);
    }
    forall n | Uninterested(w.interests[m], n) ensures Blank(c, n) {
      assert Blank(b, n);
    }
  }

  lemma NothingToCancel(names: Names, env: Receiver, w: Web, m: Module, b: Book, t: RuleType, nbr: int, key: Key)
    requires Records(w, m, b) && Uninterested(w.interests[m], nbr)
    ensures Records(w, m, Cancel(names, env, b, t, nbr, key))
  {
    assert Blank(b, nbr);
    SameBook(w, m, b, Cancel(names, env, b, t, nbr, key));
  }

  lemma SweptAll(w: Web, w': Web, m: Module, b: Book, c: Book)
    requires Records(w, m, b) && Records(w', m, c) && w'.interests == w.interests
    requires SweptTo(b, c, w.interests[m], |w.interests[m]|)
    ensures Records(w', m, Sweep(b))
  {
    var s := w.interests[m];
    forall slot: Slot ensures At(Sweep(b), slot) == At(c, slot) {
      if !Among(s, |s|, slot.subject) {
        forall x | x in s ensures x.subject.nbr != slot.subject {
          var i :| 0 <= i < |s| && s[i] == x;
        }
        assert Uninterested(s, slot.subject) && Blank(b, slot.subject);
        assert slot == Slot(slot.subject, slot.t) && (slot.t == Subscription || slot.t == Invitation);
      }
    }
    SameBook(w', m, c, Sweep(b));
  }

  lemma SameSince(w: Web, m: Module)
    requires Agree(w) && m in w.interests
    ensures Since(w, w, m)
  {
    forall n | n in w.interests ensures SameFor(w, w, n) {
      assert InterestsOk(w, n);
      assert forall s :: s in w.interests[n] ==> HasFan(w, n, s);
    }
  }

  /** Between w and w' only mod's interests have changed. */
  ghost predicate Since(w: Web, w': Web, mod: Module) {
    w'.interests.Keys == w.interests.Keys && w'.fans.Keys == w.fans.Keys && OthersSame(w, w', mod)
  }

  lemma SinceTwice(w: Web, w1: Web, w2: Web, m: Module)
    requires Since(w, w1, m) && Since(w1, w2, m)
    ensures Since(w, w2, m)
  {
    forall n | n in w.interests && n != m ensures SameFor(w, w2, n) {
      assert SameFor(w, w1, n) && SameFor(w1, w2, n);
    }
  }

  lemma NotedWeb(w: Web, w': Web, mod: Module, subject: Subject, subj: SubjOfInterest, b: Book,
                 t: RuleType, c: Claim, names: Names)
    requires Agree(w') && IsInterestIn(w, w', mod, subject, subj, b) && c.subject == subject.nbr
    ensures subj in w'.data
    ensures var w'' := Rewrite(w', subj, t, NoteRule(names, RulesOf(w'.data[subj], t), c.rule));
      Records(w'', mod, Note(names, b, t, c)) && OthersSame(w, w'', mod)
  {
    assert InterestsOk(w', mod) && HasFan(w', mod, subj);
    var rules := NoteRule(names, RulesOf(w'.data[subj], t), c.rule);
    RewriteRecords(w', mod, b, subj, t, rules);
    NoteOthers(w, w', mod, subj, t, rules);
  }

  lemma NoteOthers(w: Web, w': Web, mod: Module, subj: SubjOfInterest, t: RuleType, rules: seq<XmitRule>)
    requires Agree(w') && OthersSame(w, w', mod) && w'.interests.Keys == w.interests.Keys
    requires mod in w'.interests && subj in w'.interests[mod]
    ensures subj in w'.data && OthersSame(w, Rewrite(w', subj, t, rules), mod)
  {
    assert InterestsOk(w', mod) && HasFan(w', mod, subj);
    forall n | n in w.interests && n != mod ensures SameFor(w, Rewrite(w', subj, t, rules), n) {
      assert SameFor(w, w', n);
      RewriteOthers(w', mod, subj, t, rules, n);
    }
  }

  /** subj is now mod's interest in subject, and no rules have changed. */
  ghost predicate IsInterestIn(w: Web, w': Web, mod: Module, subject: Subject, subj: SubjOfInterest, b: Book) {
    && w'.interests.Keys == w.interests.Keys && w'.fans.Keys == w.fans.Keys && Records(w', mod, b)
    && IsInterest(w', mod, subject, Some(subj))
    && OthersSame(w, w', mod)
  }

  lemma LinkIsIn(w: Web, s: SubjOfInterest, f: FanModule, i: nat, k: nat, b: Book)
    requires Linkable(w, s, f, i, k) && Records(w, f.mod, b)
    ensures IsInterestIn(w, Link(w, s, f, i, k), f.mod, s.subject, s, b)
  {
    var w' := Link(w, s, f, i, k);
    InsertAtElements(w.interests[f.mod], s, i);
    LinkRecords(w, s, f, i, k, f.mod, b);
    forall n | n in w.interests && n != f.mod ensures SameFor(w, w', n) {
      LinkSame(w, s, f, i, k, n);
    }
  }
}
