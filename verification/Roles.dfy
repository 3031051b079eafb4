/** The roles that are authorized to receive a subject: none listed means all
    are, and a list is kept in the order of strcmp. */
module Roles {
  import opened Lists

  /** The sign of strcmp. */
  function Compare(a: string, b: string): (r: int) {
    if a == "" && b == "" then 0
    else if a == "" then -1
    else if b == "" then 1
    else if a[0] < b[0] then -1
    else if a[0] > b[0] then 1
    else Compare(a[1..], b[1..])
  }

  lemma {:induction false} CompareEqual(a: string, b: string)
    ensures Compare(a, b) == 0 <==> a == b
    ensures Compare(a, b) < 0 <==> Compare(b, a) > 0
  {
    if a != "" && b != "" && a[0] == b[0] {
      CompareEqual(a[1..], b[1..]);
      assert a == [a[0]] + a[1..] && b == [b[0]] + b[1..];
    }
  }

  lemma {:induction false} CompareChain(a: string, b: string, c: string)
    requires Compare(a, b) < 0 && Compare(b, c) < 0
    ensures Compare(a, c) < 0
  {
    if a != "" && a[0] == b[0] && b[0] == c[0] { CompareChain(a[1..], b[1..], c[1..]); }
  }

  ghost predicate Alphabetical(names: seq<string>) {
    forall i, j :: 0 <= i < j < |names| ==> Compare(names[i], names[j]) < 0
  }

  /** No list stands for every role. */
  ghost predicate InOrder(list: Option<seq<string>>) {
    list.Some? ==> Alphabetical(list.value)
  }

  ghost predicate Permitted(list: Option<seq<string>>, role: string) {
    list.None? || role in list.value
  }

  /** The name stops the search at k. */
  ghost predicate SearchStops(names: seq<string>, role: string, k: nat) {
    && k <= |names| && (forall i :: 0 <= i < k ==> Compare(names[i], role) < 0)
    && (k < |names| ==> Compare(names[k], role) >= 0)
  }

  /** From where the search stops on, only the name there can be the role. */
  lemma StoppedEarly(names: seq<string>, role: string, k: nat)
    requires Alphabetical(names) && SearchStops(names, role, k)
    ensures role in names <==> k < |names| && names[k] == role
    ensures role !in names ==> forall j :: k <= j < |names| ==> Compare(role, names[j]) < 0
  {
    CompareEqual(role, role);
    forall j | k <= j < |names| && names[k] != role ensures Compare(role, names[j]) < 0 {
      CompareEqual(names[k], role);
      CompareEqual(role, names[k]);
      if j > k { CompareChain(role, names[k], names[j]); }
    }
  }

  method Search(names: seq<string>, role: string) returns (k: nat)
    ensures SearchStops(names, role, k)
  {
    k := 0;
    while k < |names| && Compare(names[k], role) < 0
      invariant k <= |names| && forall i :: 0 <= i < k ==> Compare(names[i], role) < 0
    {
      k := k + 1;
    }
  }

  /** The determination of noteAssertion: may the role receive the subject? */
  method MayReceive(list: Option<seq<string>>, role: string) returns (okay: bool)
    requires InOrder(list)
    ensures okay <==> list.None? || role in list.value
  {
    if list.None? { return true; }
    var k := Search(list.value, role);
    StoppedEarly(list.value, role, k);
    CompareEqual(role, role);
    if k < |list.value| { CompareEqual(list.value[k], role); }
    okay := k < |list.value| && Compare(list.value[k], role) == 0;
  }

  /** Only the venture's roles can be authorized. The first authorization of a
      subject makes its list, so that the other roles lose theirs. */
  method AddAuthorization(roles: set<string>, list: Option<seq<string>>, role: string)
    returns (ok: bool, r: Option<seq<string>>)
    requires InOrder(list)
    ensures InOrder(r) && ok == (role in roles) && (!ok ==> r == list)
    ensures ok ==> forall x :: Permitted(r, x) <==> x == role || (list.Some? && Permitted(list, x))
  {
    if role !in roles { return false, list; }
    var names := if list.None? then [] else list.value;
    var k := Search(names, role);
    StoppedEarly(names, role, k);
    if k < |names| && Compare(names[k], role) == 0 {
      CompareEqual(names[k], role);
      return true, Some(names);
    }
    if k < |names| { CompareEqual(names[k], role); CompareEqual(role, role); }
    InsertAtElements(names, role, k);
    return true, Some(InsertAt(names, role, k));
  }
}
