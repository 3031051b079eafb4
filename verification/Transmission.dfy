/** The transmission rules that other modules' assertions give rise to, and
    the resynchronization of a module's rules with its declaration. */
module Transmission {
  import opened Lists
  import opened Units
  import opened RuleTables

  /** A point at which a module receives; rules refer to it, and the rules of
      two points differ even if the points look alike. */
  class Endpoint {
    const vector: nat

    constructor (vector: nat)
      ensures this.vector == vector
    {
      this.vector := vector;
    }
  }

  /** okay: the receiving module is authorized to receive the subject. */
  datatype XmitRule = XmitRule(role: nat, continuum: nat, unit: nat, priority: nat, flowLabel: nat,
                               point: Endpoint, okay: bool, confirmed: bool)

  /** The rules of one list are all for one subject. */
  function XmitKey(r: XmitRule): (key: Key) {
    Key(0, r.role, r.continuum, r.unit)
  }

  ghost function XmitKeys(rules: seq<XmitRule>): (keys: seq<Key>) {
    seq(|rules|, i requires 0 <= i < |rules| => XmitKey(rules[i]))
  }

  ghost predicate OrderedXmit(names: Names, rules: seq<XmitRule>) {
    Ordered(names, XmitKeys(rules))
  }

  /** Where the search for key stops. */
  ghost function Position(names: Names, keys: seq<Key>, key: Key): (k: nat)
    ensures StopsAt(names, keys, key, k)
  {
    if keys == [] || !MayPrecede(names, keys[0], key) then 0 else 1 + Position(names, keys[1..], key)
  }

  lemma PositionIsStop(names: Names, keys: seq<Key>, key: Key, k: nat)
    requires StopsAt(names, keys, key, k)
    ensures Position(names, keys, key) == k
  {
    var p := Position(names, keys, key);
    assert !(p < k) && !(k < p);
  }

  /** What noteAssertion makes of a list of rules: a rule that is there already
      is only marked, one that has changed is replaced where it stands, and a
      new one goes where the search for it stopped. */
  ghost function NoteRule(names: Names, rules: seq<XmitRule>, rule: XmitRule): (r: seq<XmitRule>)
  {
    var k := Position(names, XmitKeys(rules), XmitKey(rule));
    if k < |rules| && XmitKey(rules[k]) == XmitKey(rule) then
      rules[k := Renewed(rules[k], rule)]
    else InsertAt(rules, rule, k)
  }

  function Renewed(was: XmitRule, rule: XmitRule): (r: XmitRule)
    ensures XmitKey(was) == XmitKey(rule) ==> XmitKey(r) == XmitKey(rule)
  {
    if was.point == rule.point && was.priority == rule.priority && was.flowLabel == rule.flowLabel
    then was.(confirmed := was.confirmed || rule.confirmed)
    else rule
  }

  ghost function RemoveRule(names: Names, rules: seq<XmitRule>, key: Key): (r: seq<XmitRule>)
  {
    var k := Position(names, XmitKeys(rules), key);
    if k < |rules| && XmitKey(rules[k]) == key then DeleteAt(rules, k) else rules
  }

  /** The rule of this key. */
  ghost function RuleOf(rules: seq<XmitRule>, key: Key): (r: Option<XmitRule>)
    ensures r.Some? ==> r.value in rules && XmitKey(r.value) == key
    ensures r.None? ==> key !in XmitKeys(rules)
  {
    if exists i :: 0 <= i < |rules| && XmitKey(rules[i]) == key then
      var i :| 0 <= i < |rules| && XmitKey(rules[i]) == key;
      Some(rules[i])
    else None
  }

  lemma RuleOfAt(names: Names, rules: seq<XmitRule>, i: nat)
    requires OrderedXmit(names, rules) && i < |rules|
    ensures RuleOf(rules, XmitKey(rules[i])) == Some(rules[i])
  {
    var key := XmitKey(rules[i]);
    var keys := XmitKeys(rules);
    var r := RuleOf(rules, key);
    assert r.Some? by { assert keys[i] == key; }
    var j :| 0 <= j < |rules| && rules[j] == r.value;
    assert keys[j] == key && keys[i] == key && !MayPrecede(names, key, key);
  }

  lemma RuleOfNone(rules: seq<XmitRule>, key: Key)
    ensures RuleOf(rules, key).None? <==> key !in XmitKeys(rules)
  {
    var r := RuleOf(rules, key);
    if r.Some? {
      var i :| 0 <= i < |rules| && rules[i] == r.value;
      assert XmitKeys(rules)[i] == key;
    }
  }

  /** A noted rule is there afterwards and the others are as they were. */
  lemma NoteRuleEffect(names: Names, rules: seq<XmitRule>, rule: XmitRule, key: Key)
    requires UniqueNames(names) && OrderedXmit(names, rules)
    ensures OrderedXmit(names, NoteRule(names, rules, rule))
    ensures RuleOf(NoteRule(names, rules, rule), key) ==
      if key != XmitKey(rule) then RuleOf(rules, key)
      else match RuleOf(rules, key) { case None => Some(rule) case Some(was) => Some(Renewed(was, rule)) }
  {
    var keys, mine := XmitKeys(rules), XmitKey(rule);
    var k := Position(names, keys, mine);
    StopFinds(names, keys, mine, k);
    var r := NoteRule(names, rules, rule);
    if k < |rules| && XmitKey(rules[k]) == mine {
      assert XmitKeys(r) == keys;
      UpdateElements(rules, k, r[k]);
      RuleOfAt(names, rules, k);
      RuleOfAt(names, r, k);
    } else {
      assert XmitKeys(r) == InsertAt(keys, mine, k);
      RuleOfNone(rules, mine);
      InsertAtElements(rules, rule, k);
      assert r[k] == rule;
      RuleOfAt(names, r, k);
    }
    if key != mine { OthersKept(names, rules, r, key); }
  }

  /** Lists with the same rules of a key. */
  lemma OthersKept(names: Names, rules: seq<XmitRule>, rules': seq<XmitRule>, key: Key)
    requires OrderedXmit(names, rules) && OrderedXmit(names, rules')
    requires forall r :: r in rules && XmitKey(r) == key ==> r in rules'
    requires forall r :: r in rules' && XmitKey(r) == key ==> r in rules
    ensures RuleOf(rules', key) == RuleOf(rules, key)
  {
    var a, b := RuleOf(rules, key), RuleOf(rules', key);
    RuleOfNone(rules, key);
    RuleOfNone(rules', key);
    if a.Some? {
      var i :| 0 <= i < |rules'| && rules'[i] == a.value;
      RuleOfAt(names, rules', i);
    } else if b.Some? {
      var i :| 0 <= i < |rules| && rules[i] == b.value;
      RuleOfAt(names, rules, i);
    }
  }

  lemma RemoveRuleEffect(names: Names, rules: seq<XmitRule>, key: Key, other: Key)
    requires UniqueNames(names) && OrderedXmit(names, rules)
    ensures OrderedXmit(names, RemoveRule(names, rules, key))
    ensures RuleOf(RemoveRule(names, rules, key), other) == if other == key then None else RuleOf(rules, other)
  {
    var keys := XmitKeys(rules);
    var k := Position(names, keys, key);
    StopFinds(names, keys, key, k);
    var r := RemoveRule(names, rules, key);
    RuleOfNone(rules, key);
    RuleOfNone(r, key);
    if k < |rules| && XmitKey(rules[k]) == key {
      assert XmitKeys(r) == DeleteAt(keys, k);
      DeletedOrdered(names, keys, k);
      DeleteAtElements(rules, k);
    }
    if other != key { OthersKept(names, rules, r, other); }
  }

  // ---- The searches ------------------------------------------------------------------------

  /** The rule with this key, or else where it belongs. */
  method FindXmitRule(names: Names, rules: seq<XmitRule>, key: Key) returns (found: bool, k: nat)
    requires UniqueNames(names) && OrderedXmit(names, rules) && key.subject == 0
    ensures k == Position(names, XmitKeys(rules), key)
    ensures found <==> k < |rules| && XmitKey(rules[k]) == key
    ensures found <==> key in XmitKeys(rules)
  {
    ghost var keys := XmitKeys(rules);
    k := 0;
    var going := true;
    while going && k < |rules|
      invariant k <= |rules|
      invariant forall i :: 0 <= i < k ==> MayPrecede(names, keys[i], key)
      invariant !going ==> k < |rules| && !MayPrecede(names, keys[k], key)
      decreases |rules| - k, going
    {
      var rule := rules[k];
      if rule.role != key.role {
        going := rule.role != 0;
      } else if rule.continuum != key.continuum {
        going := rule.continuum != 0;
      } else if rule.unit != key.unit {
        going := !Within(names, key.unit, rule.unit);
      } else {
        going := false;
      }
      if going { k := k + 1; }
    }
    PositionIsStop(names, keys, key, k);
    StopFinds(names, keys, key, k);
    found := k < |rules| && XmitKey(rules[k]) == key;
  }

  /** The sender of this role in this unit of this continuum may use the rule. */
  predicate Usable(names: Names, r: XmitRule, role: nat, continuum: nat, unit: nat) {
    r.okay && Applies(names, XmitKey(r), 0, role, continuum, unit)
  }

  /** A rule can be used exactly if the receiver is authorized and the rule, with
      the list's subject put in, applies to the sender. */
  lemma UsableExactly(names: Names, r: XmitRule, role: nat, continuum: nat, unit: nat, subject: int)
    ensures Usable(names, r, role, continuum, unit) <==>
      r.okay && Applies(names, Key(subject, r.role, r.continuum, r.unit), subject, role, continuum, unit)
  {
  }

  /** elt is the index of the most specific usable rule, if any is usable. */
  ghost predicate Selected(
    names: Names, rules: seq<XmitRule>, elt: Option<nat>, role: nat, continuum: nat, unit: nat)
  {
    match elt
    case None => forall j :: 0 <= j < |rules| ==> !Usable(names, rules[j], role, continuum, unit)
    case Some(k) =>
      && k < |rules| && Usable(names, rules[k], role, continuum, unit)
      && forall j :: 0 <= j < |rules| && j != k && Usable(names, rules[j], role, continuum, unit)
           ==> MoreSpecific(names, XmitKey(rules[k]), XmitKey(rules[j]))
  }

  lemma FirstUsable(names: Names, rules: seq<XmitRule>, k: nat, role: nat, continuum: nat, unit: nat)
    requires OrderedXmit(names, rules) && k < |rules| && Usable(names, rules[k], role, continuum, unit)
    requires forall j :: 0 <= j < k ==> !Usable(names, rules[j], role, continuum, unit)
    ensures Selected(names, rules, Some(k), role, continuum, unit)
  {
    forall j | k < j < |rules| && Usable(names, rules[j], role, continuum, unit)
      ensures MoreSpecific(names, XmitKey(rules[k]), XmitKey(rules[j])) {
      assert MayPrecede(names, XmitKeys(rules)[k], XmitKeys(rules)[j]);
      SpecificFirst(names, XmitKey(rules[k]), XmitKey(rules[j]), 0, role, continuum, unit);
    }
  }

  method QualifySender(names: Names, rule: XmitRule, role: nat, continuum: nat, unit: nat) returns (r: bool)
    ensures r <==> Applies(names, XmitKey(rule), 0, role, continuum, unit)
  {
    if rule.role != 0 && rule.role != role { return false; }
    if rule.continuum != 0 && rule.continuum != continuum { return false; }
    r := Within(names, unit, rule.unit);
  }

  method GetXmitRule(names: Names, rules: seq<XmitRule>, role: nat, continuum: nat, unit: nat)
    returns (elt: Option<nat>)
    requires OrderedXmit(names, rules)
    ensures Selected(names, rules, elt, role, continuum, unit)
  {
    for k := 0 to |rules|
      invariant forall j :: 0 <= j < k ==> !Usable(names, rules[j], role, continuum, unit)
    {
      var qualified := QualifySender(names, rules[k], role, continuum, unit);
      if rules[k].okay && qualified {
        FirstUsable(names, rules, k, role, continuum, unit);
        return Some(k);
      }
    }
    return None;
  }
}
