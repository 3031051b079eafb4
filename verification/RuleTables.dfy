/** The ordered lists of reception and transmission rules of a module, and the
    searches that stop early because of the order. */
module RuleTables {
  import opened Lists
  import opened Units

  /** What a rule is about. Role 0 and continuum 0 stand for all roles and all
      continua; a unit stands for itself and the units within it. */
  datatype Key = Key(subject: int, role: nat, continuum: nat, unit: nat)

  /** x may stand before y in a list: by ascending subject; within a subject
      the rules for all roles come last; within a role the rules for all
      continua come last; and then no unit comes before a unit within it. */
  predicate MayPrecede(names: Names, x: Key, y: Key) {
    x.subject < y.subject ||
    (x.subject == y.subject &&
     if x.role != y.role then x.role != 0
     else if x.continuum != y.continuum then x.continuum != 0
     else x.unit != y.unit && !Within(names, y.unit, x.unit))
  }

  ghost predicate Ordered(names: Names, keys: seq<Key>) {
    forall i, j :: 0 <= i < j < |keys| ==> MayPrecede(names, keys[i], keys[j])
  }

  /** Where a search for key gives up: at a rule that may not stand before it. */
  ghost predicate StopsAt(names: Names, keys: seq<Key>, key: Key, k: nat) {
    && k <= |keys|
    && (forall i :: 0 <= i < k ==> MayPrecede(names, keys[i], key))
    && (k < |keys| ==> !MayPrecede(names, keys[k], key))
  }

  /** If the search stops short of the key, everything from there on may follow it. */
  lemma StopFollows(names: Names, x: Key, y: Key, key: Key)
    requires UniqueNames(names)
    requires !MayPrecede(names, x, key) && x != key
    ensures MayPrecede(names, key, x)
    ensures MayPrecede(names, x, y) ==> MayPrecede(names, key, y)
  {
  }

  /** The search is complete, and where it fails is where the key belongs. */
  lemma StopFinds(names: Names, keys: seq<Key>, key: Key, k: nat)
    requires UniqueNames(names) && Ordered(names, keys) && StopsAt(names, keys, key, k)
    ensures key in keys <==> k < |keys| && keys[k] == key
    ensures key !in keys ==> Ordered(names, InsertAt(keys, key, k))
  {
    if key in keys {
      var j :| 0 <= j < |keys| && keys[j] == key;
      assert !MayPrecede(names, key, key);
    } else {
      forall j | k <= j < |keys| ensures MayPrecede(names, key, keys[j]) {
        StopFollows(names, keys[k], keys[j], key);
      }
    }
  }

  lemma DeletedOrdered(names: Names, keys: seq<Key>, k: nat)
    requires Ordered(names, keys) && k < |keys|
    ensures Ordered(names, DeleteAt(keys, k)) && keys[k] !in DeleteAt(keys, k)
    ensures forall x :: x in DeleteAt(keys, k) <==> x in keys && x != keys[k]
  {
    var r := DeleteAt(keys, k);
    forall x | x in keys && x != keys[k] ensures x in r {
      var i :| 0 <= i < |keys| && keys[i] == x;
      assert r[if i < k then i else i - 1] == x;
    }
    forall i | 0 <= i < |r| ensures r[i] != keys[k] {
      assert i < k ==> MayPrecede(names, keys[i], keys[k]);
      assert i >= k ==> MayPrecede(names, keys[k], keys[i + 1]);
    }
  }

  /** Erasing units never disturbs the order, whichever units the rules are about. */
  lemma OrderedInSmallerVenture(names: Names, names': Names, keys: seq<Key>)
    requires Ordered(names, keys)
    requires forall i :: i in names' ==> i in names && names[i] == names'[i]
    ensures Ordered(names', keys)
  {
    forall i, j | 0 <= i < j < |keys| ensures MayPrecede(names', keys[i], keys[j]) {
      assert MayPrecede(names, keys[i], keys[j]);
    }
  }

  /** Two rules alike but for their units, one of them about unit n, of which
      the first is about a unit that the second one's unit is now within. */
  ghost predicate Disturbed(names: Names, n: nat, x: Key, y: Key) {
    && x.subject == y.subject && x.role == y.role && x.continuum == y.continuum
    && (x.unit == n || y.unit == n) && Within(names, y.unit, x.unit)
  }

  /** A new unit n disturbs the order exactly if there are rules about it
      already, made while it was unknown, that stand in the wrong order. */
  lemma OrderedInLargerVenture(names: Names, n: nat, name: string, keys: seq<Key>)
    requires Ordered(names, keys) && n !in names
    ensures Ordered(names[n := name], keys) <==>
      forall i, j :: 0 <= i < j < |keys| ==> !Disturbed(names[n := name], n, keys[i], keys[j])
  {
    forall i, j | 0 <= i < j < |keys|
      ensures MayPrecede(names[n := name], keys[i], keys[j]) <==>
        !Disturbed(names[n := name], n, keys[i], keys[j]) {
      assert MayPrecede(names, keys[i], keys[j]);
    }
  }

  /** In particular it does not if all rules are about units that exist. */
  lemma OrderedAboutKnown(names: Names, n: nat, name: string, keys: seq<Key>)
    requires Ordered(names, keys) && n !in names && forall k :: k in keys ==> k.unit in names
    ensures Ordered(names[n := name], keys)
  {
    OrderedInLargerVenture(names, n, name, keys);
  }

  /** It can: a rule about the root made before one about unit 1 is in order
      while unit 1 is unknown, and then hides it. */
  lemma OrderLost(name: string)
    ensures var root, x, y := map[0 := ""], Key(1, 0, 0, 0), Key(1, 0, 0, 1);
      Ordered(root, [x, y]) && !Ordered(root[1 := name], [x, y])
  {
    var root, keys := map[0 := ""], [Key(1, 0, 0, 0), Key(1, 0, 0, 1)];
    assert !MayPrecede(root[1 := name], keys[0], keys[1]);
  }

  // ---- Which rule applies ----------------------------------------------------------------

  /** The rule is for this subject and for senders of this role in this unit
      of this continuum. */
  predicate Applies(names: Names, x: Key, subject: int, role: nat, continuum: nat, unit: nat) {
    && x.subject == subject && (x.role == role || x.role == 0)
    && (x.continuum == continuum || x.continuum == 0) && Within(names, unit, x.unit)
  }

  /** A rule about just one sender applies to it, and goes on doing so if it is
      for all roles, for all continua, or for a unit that the sender's is within. */
  lemma AppliesToItsSender(names: Names, subject: int, role: nat, continuum: nat, unit: nat)
    requires unit in names
    ensures Applies(names, Key(subject, role, continuum, unit), subject, role, continuum, unit)
  {
  }

  lemma AppliesMoreWidely(names: Names, x: Key, subject: int, role: nat, continuum: nat, unit: nat, superunit: nat)
    requires Applies(names, x, subject, role, continuum, unit) && Within(names, unit, superunit)
    ensures Applies(names, x.(role := 0), subject, role, continuum, unit)
    ensures Applies(names, x.(continuum := 0), subject, role, continuum, unit)
    ensures Applies(names, x.(unit := superunit), subject, role, continuum, unit)
  {
  }

  /** And only then: a rule about one subject, role, continuum or unit does not
      apply to another. */
  lemma AppliesToNoOther(names: Names, x: Key, subject: int, role: nat, continuum: nat, unit: nat)
    requires x.subject != subject || (x.role != 0 && x.role != role) || (x.continuum != 0 && x.continuum != continuum)
      || !Within(names, unit, x.unit)
    ensures !Applies(names, x, subject, role, continuum, unit)
  {
  }

  /** Of two rules that apply to one sender, x is the more specific: by role,
      then by continuum, then by depth of unit. */
  predicate MoreSpecific(names: Names, x: Key, y: Key) {
    if x.role != y.role then y.role == 0
    else if x.continuum != y.continuum then y.continuum == 0
    else x.unit != y.unit && Within(names, x.unit, y.unit)
  }

  /** A rule for the sender's role is preferred to one for all roles, whatever
      else they say; of two for the same, one for its continuum to one for all;
      and of two alike in both, the one whose unit has the longer name. */
  lemma Preferences(names: Names, x: Key, y: Key, subject: int, role: nat, continuum: nat, unit: nat)
    requires Applies(names, x, subject, role, continuum, unit)
    requires Applies(names, y, subject, role, continuum, unit)
    ensures x.role != 0 && y.role == 0 ==> MoreSpecific(names, x, y) && !MoreSpecific(names, y, x)
    ensures x.role == y.role && x.continuum != 0 && y.continuum == 0 ==>
      MoreSpecific(names, x, y) && !MoreSpecific(names, y, x)
    ensures x.role == y.role && x.continuum == y.continuum && |names[x.unit]| > |names[y.unit]| ==>
      MoreSpecific(names, x, y) && !MoreSpecific(names, y, x)
  {
    PrefixesCompare(names[x.unit], names[y.unit], names[unit]);
    PrefixesCompare(names[y.unit], names[x.unit], names[unit]);
  }

  /** Of two rules that apply to one sender, the list puts the more specific first. */
  lemma SpecificFirst(names: Names, x: Key, y: Key, subject: int, role: nat, continuum: nat, unit: nat)
    requires Applies(names, x, subject, role, continuum, unit)
    requires Applies(names, y, subject, role, continuum, unit)
    requires MayPrecede(names, x, y)
    ensures MoreSpecific(names, x, y)
  {
    PrefixesCompare(names[x.unit], names[y.unit], names[unit]);
    PrefixesCompare(names[y.unit], names[x.unit], names[unit]);
  }

  /** Index k holds the most specific rule that applies. */
  ghost predicate BestAt(
    names: Names, keys: seq<Key>, k: nat, subject: int, role: nat, continuum: nat, unit: nat)
  {
    && k < |keys| && Applies(names, keys[k], subject, role, continuum, unit)
    && forall j :: 0 <= j < |keys| && j != k && Applies(names, keys[j], subject, role, continuum, unit)
         ==> MoreSpecific(names, keys[k], keys[j])
  }

  lemma FirstIsBest(
    names: Names, keys: seq<Key>, k: nat, subject: int, role: nat, continuum: nat, unit: nat)
    requires Ordered(names, keys) && k < |keys| && Applies(names, keys[k], subject, role, continuum, unit)
    requires forall j :: 0 <= j < k ==> !Applies(names, keys[j], subject, role, continuum, unit)
    ensures BestAt(names, keys, k, subject, role, continuum, unit)
  {
    forall j | 0 <= j < |keys| && j != k && Applies(names, keys[j], subject, role, continuum, unit)
      ensures MoreSpecific(names, keys[k], keys[j]) {
      SpecificFirst(names, keys[k], keys[j], subject, role, continuum, unit);
    }
  }

  /** The rule found depends on which rules there are, not on the order in
      which they were made. */
  lemma BestIsUnique(
    names: Names, keys: seq<Key>, k: nat, keys': seq<Key>, k': nat,
    subject: int, role: nat, continuum: nat, unit: nat)
    requires UniqueNames(names) && (forall x :: x in keys <==> x in keys')
    requires BestAt(names, keys, k, subject, role, continuum, unit)
    requires BestAt(names, keys', k', subject, role, continuum, unit)
    ensures keys[k] == keys'[k']
  {
    assert keys[k] in keys && keys'[k'] in keys';
    assert keys[k] in keys' && keys'[k'] in keys;
  }

  ghost predicate Missed(
    names: Names, keys: seq<Key>, k: nat, subject: int, role: nat, continuum: nat, unit: nat)
  {
    k <= |keys| && forall i :: 0 <= i < k ==> !Applies(names, keys[i], subject, role, continuum, unit)
  }

  /** elt is the index of the most specific rule that applies, if any does. */
  ghost predicate Chosen(
    names: Names, keys: seq<Key>, elt: Option<nat>, subject: int, role: nat, continuum: nat, unit: nat)
  {
    match elt
    case None => Missed(names, keys, |keys|, subject, role, continuum, unit)
    case Some(k) => BestAt(names, keys, k, subject, role, continuum, unit)
  }

  lemma SearchEnds(
    names: Names, keys: seq<Key>, k: nat, elt: Option<nat>,
    subject: int, role: nat, continuum: nat, unit: nat)
    requires Ordered(names, keys) && Missed(names, keys, k, subject, role, continuum, unit)
    requires elt.Some? ==> elt.value == k < |keys| && Applies(names, keys[k], subject, role, continuum, unit)
    requires elt.None? && k < |keys| ==> keys[k].subject > subject
    ensures Chosen(names, keys, elt, subject, role, continuum, unit)
  {
    if elt.Some? {
      FirstIsBest(names, keys, k, subject, role, continuum, unit);
    } else {
      LaterSubjects(names, keys, k, subject);
    }
  }

  // ---- Reception rules ---------------------------------------------------------------------

  datatype RuleType = Subscription | Invitation

  datatype MsgRule = MsgRule(key: Key, priority: nat, flowLabel: nat, vector: nat)

  ghost function MsgKeys(rules: seq<MsgRule>): (keys: seq<Key>) {
    seq(|rules|, i requires 0 <= i < |rules| => rules[i].key)
  }

  /** rules' is rules with one more rule, unless its key is there already. */
  ghost predicate Added(rules: seq<MsgRule>, rules': seq<MsgRule>, rule: MsgRule, elt: Option<nat>) {
    && (elt.None? <==> rule.key in MsgKeys(rules))
    && (elt.None? ==> rules' == rules)
    && (elt.Some? ==> elt.value <= |rules| && rules' == InsertAt(rules, rule, elt.value))
  }

  /** rules' is rules without the rule of this key, which must be there. */
  ghost predicate Removed(rules: seq<MsgRule>, rules': seq<MsgRule>, key: Key, ok: bool) {
    && (ok <==> key in MsgKeys(rules))
    && (!ok ==> rules' == rules)
    && (ok ==> exists k | 0 <= k < |rules| :: rules[k].key == key && rules' == DeleteAt(rules, k))
    && key !in MsgKeys(rules')
  }

  lemma RemovedAt(names: Names, rules: seq<MsgRule>, k: nat)
    requires OrderedRules(names, rules) && k < |rules|
    ensures OrderedRules(names, DeleteAt(rules, k))
    ensures Removed(rules, DeleteAt(rules, k), rules[k].key, true)
  {
    assert MsgKeys(DeleteAt(rules, k)) == DeleteAt(MsgKeys(rules), k);
    DeletedOrdered(names, MsgKeys(rules), k);
    assert rules[k].key == MsgKeys(rules)[k];
  }

  ghost predicate OrderedRules(names: Names, rules: seq<MsgRule>) {
    Ordered(names, MsgKeys(rules))
  }

  class Sap {
    const venture: Venture
    var subscriptions: seq<MsgRule>
    var invitations: seq<MsgRule>

    constructor (venture: Venture)
      ensures this.venture == venture && subscriptions == [] && invitations == []
    {
      this.venture, subscriptions, invitations := venture, [], [];
    }

    /** Both lists are in order, given the units of the venture. */
    ghost predicate Valid(names: Names)
      reads this
    {
      OrderedRules(names, subscriptions) && OrderedRules(names, invitations)
    }

    function Rules(t: RuleType): seq<MsgRule>
      reads this
    {
      if t == Subscription then subscriptions else invitations
    }

    /** The rule with this very key, or else where it belongs. */
    method FindMsgRule(rules: seq<MsgRule>, key: Key) returns (found: bool, k: nat)
      requires venture.Valid() && key.unit < venture.units.Length
      requires OrderedRules(venture.Named(), rules)
      ensures found <==> key in MsgKeys(rules)
      ensures found ==> k < |rules| && rules[k].key == key
      ensures !found ==> k <= |rules| && Ordered(venture.Named(), InsertAt(MsgKeys(rules), key, k))
    {
      ghost var names, keys := venture.Named(), MsgKeys(rules);
      k := 0;
      var going := true;
      while going && k < |rules|
        invariant k <= |rules|
        invariant forall i :: 0 <= i < k ==> MayPrecede(names, keys[i], key)
        invariant !going ==> k < |rules| && !MayPrecede(names, keys[k], key)
        decreases |rules| - k, going
      {
        going := true;
        var rule := rules[k].key;
        if rule.subject > key.subject {
          going := false;
        } else if rule.subject == key.subject {
          if rule.role != key.role {
            going := rule.role != 0;
          } else if rule.continuum != key.continuum {
            going := rule.continuum != 0;
          } else if rule.unit != key.unit {
            var inside := venture.SubunitOf(key.unit, rule.unit);
            going := !inside;
          } else {
            going := false;
          }
        }
        if going { k := k + 1; }
      }
      StopFinds(names, keys, key, k);
      found := k < |rules| && rules[k].key == key;
    }

    method SetRules(t: RuleType, rules: seq<MsgRule>)
      modifies this
      ensures subscriptions == if t == Subscription then rules else old(subscriptions)
      ensures invitations == if t == Subscription then old(invitations) else rules
    {
      if t == Subscription { subscriptions := rules; } else { invitations := rules; }
    }

    /** No effect if the rule is known already. */
    method AddMsgRule(t: RuleType, rule: MsgRule) returns (elt: Option<nat>)
      requires venture.Valid() && Valid(venture.Named()) && rule.key.unit < venture.units.Length
      modifies this
      ensures Valid(old(venture.Named()))
      ensures t == Subscription ==> invitations == old(invitations)
      ensures t == Invitation ==> subscriptions == old(subscriptions)
      ensures Added(old(Rules(t)), Rules(t), rule, elt)
    {
      var rules := Rules(t);
      var found, k := FindMsgRule(rules, rule.key);
      if found { return None; }
      assert MsgKeys(InsertAt(rules, rule, k)) == InsertAt(MsgKeys(rules), rule.key, k);
      assert OrderedRules(venture.Named(), InsertAt(rules, rule, k));
      SetRules(t, InsertAt(rules, rule, k));
      elt := Some(k);
    }

    /** Fails if there is no such rule. */
    method RemoveMsgRule(t: RuleType, key: Key) returns (ok: bool)
      requires venture.Valid() && Valid(venture.Named()) && key.unit < venture.units.Length
      modifies this
      ensures Valid(old(venture.Named()))
      ensures t == Subscription ==> invitations == old(invitations)
      ensures t == Invitation ==> subscriptions == old(subscriptions)
      ensures Removed(old(Rules(t)), Rules(t), key, ok)
    {
      ghost var names := venture.Named();
      var rules := Rules(t);
      var found, k := FindMsgRule(rules, key);
      if !found { return false; }
      RemovedAt(names, rules, k);
      SetRules(t, DeleteAt(rules, k));
      ok := true;
    }

    method Fits(rule: Key, role: nat, continuum: nat, unit: nat) returns (r: bool)
      requires venture.Valid() && unit < venture.units.Length
      ensures r <==> Applies(venture.Named(), rule, rule.subject, role, continuum, unit)
    {
      if (rule.role != role && rule.role != 0) || (rule.continuum != continuum && rule.continuum != 0) {
        return false;
      }
      r := venture.SubunitOf(unit, rule.unit);
    }

    /** The rule by which a message of this subject from this sender is
        received: the most specific one that applies, if any does. */
    method GetMsgRule(rules: seq<MsgRule>, subject: int, role: nat, continuum: nat, unit: nat)
      returns (elt: Option<nat>)
      requires venture.Valid() && unit < venture.units.Length
      requires OrderedRules(venture.Named(), rules)
      ensures Chosen(venture.Named(), MsgKeys(rules), elt, subject, role, continuum, unit)
    {
      ghost var names, keys := venture.Named(), MsgKeys(rules);
      var k, past, found := 0, false, false;
      while !past && !found && k < |rules|
        invariant k <= |rules| && Missed(names, keys, k, subject, role, continuum, unit)
        invariant past ==> k < |rules| && keys[k].subject > subject
        invariant found ==> k < |rules| && Applies(names, keys[k], subject, role, continuum, unit)
        decreases |rules| - k, !past, !found
      {
        var rule := rules[k].key;
        if rule.subject > subject {
          past := true;
        } else if rule.subject == subject {
          found := Fits(rule, role, continuum, unit);
        }
        if !past && !found { k := k + 1; }
      }
      elt := if found then Some(k) else None;
      SearchEnds(names, keys, k, elt, subject, role, continuum, unit);
    }
  }

  /** Beyond a rule for a greater subject all subjects are greater. */
  lemma LaterSubjects(names: Names, keys: seq<Key>, k: nat, subject: int)
    requires Ordered(names, keys) && (k < |keys| ==> keys[k].subject > subject)
    ensures forall j :: k <= j < |keys| ==> keys[j].subject > subject
  {
    forall j | k < j < |keys| ensures keys[j].subject > subject {
      assert MayPrecede(names, keys[k], keys[j]);
    }
  }
}
