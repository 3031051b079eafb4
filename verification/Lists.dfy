/** Operations on the linked lists of the source, as sequences. */
module Lists {

  datatype Option<+T> = None | Some(value: T)

  ghost predicate NoRepeats<T>(s: seq<T>) {
    forall i, j :: 0 <= i < j < |s| ==> s[i] != s[j]
  }

  /** s without the elements that occur in drop; order is kept. */
  function Without<T(==, !new)>(s: seq<T>, drop: seq<T>): (r: seq<T>)
    ensures forall x :: x in r <==> x in s && x !in drop
  {
    if s == [] then []
    else if s[|s|-1] in drop then Without(s[..|s|-1], drop)
    else Without(s[..|s|-1], drop) + [s[|s|-1]]
  }

  lemma {:induction false} WithoutNoRepeats<T(!new)>(s: seq<T>, drop: seq<T>)
    requires NoRepeats(s)
    ensures NoRepeats(Without(s, drop))
  {
    if s != [] { WithoutNoRepeats(s[..|s|-1], drop); }
  }

  /** a followed by the elements of b it lacks, each once. */
  function Union<T(==, !new)>(a: seq<T>, b: seq<T>): (r: seq<T>)
    ensures forall x :: x in r <==> x in a || x in b
  {
    if b == [] then a
    else
      var r := Union(a, b[..|b|-1]);
      if b[|b|-1] in r then r else r + [b[|b|-1]]
  }

  lemma {:induction false} UnionNoRepeats<T(!new)>(a: seq<T>, b: seq<T>)
    requires NoRepeats(a)
    ensures NoRepeats(Union(a, b))
  {
    if b != [] { UnionNoRepeats(a, b[..|b|-1]); }
  }

  /** s without the first occurrence of x, if any. */
  function RemoveFirst<T(==, !new)>(s: seq<T>, x: T): (r: seq<T>)
    ensures x !in s ==> r == s
    ensures forall y :: y != x ==> (y in r <==> y in s)
    ensures x in s ==> |r| == |s| - 1
  {
    if s == [] then [] else if s[0] == x then s[1..] else [s[0]] + RemoveFirst(s[1..], x)
  }

  lemma {:induction false} RemoveFirstNoRepeats<T(!new)>(s: seq<T>, x: T)
    requires NoRepeats(s)
    ensures NoRepeats(RemoveFirst(s, x)) && x !in RemoveFirst(s, x)
  {
    if s != [] {
      RemoveFirstNoRepeats(s[1..], x);
      assert s[0] !in s[1..];
    }
  }

  lemma NoMembers<T(!new)>(s: seq<T>)
    ensures s != [] ==> exists x :: x in s
  {
    if s != [] { assert s[0] in s; }
  }

  lemma SoleMember<T(!new)>(s: seq<T>, x: T)
    requires NoRepeats(s) && s != [] && forall y :: y in s ==> y == x
    ensures s == [x]
  {
    assert |s| > 1 ==> s[0] != s[1];
    assert forall i :: 0 <= i < |s| ==> s[i] in s;
  }

  lemma Assoc<T>(a: seq<T>, b: seq<T>, c: seq<T>)
    ensures (a + b) + c == a + (b + c)
  {
  }

  lemma ConsConcat<T>(a: seq<T>, b: seq<T>)
    requires a != []
    ensures (a + b)[0] == a[0] && (a + b)[1..] == a[1..] + b
  {
  }

  lemma WithNothing<T>(s: seq<T>)
    ensures s + [] == s && [] + s == s
  {
  }

  function InsertAt<T>(s: seq<T>, x: T, k: nat): (r: seq<T>)
    requires k <= |s|
  {
    s[..k] + [x] + s[k..]
  }

  function DeleteAt<T>(s: seq<T>, k: nat): (r: seq<T>)
    requires k < |s|
  {
    s[..k] + s[k+1..]
  }

  lemma InsertAtElements<T>(s: seq<T>, x: T, k: nat)
    requires k <= |s|
    ensures forall y :: y in InsertAt(s, x, k) <==> y == x || y in s
  {
    assert s == s[..k] + s[k..];
  }

  lemma DeleteAtElements<T>(s: seq<T>, k: nat)
    requires k < |s|
    ensures forall y :: y in s <==> y == s[k] || y in DeleteAt(s, k)
  {
    assert s == s[..k] + [s[k]] + s[k+1..];
  }

  lemma UpdateElements<T>(s: seq<T>, k: nat, x: T)
    requires k < |s|
    ensures forall y :: y in s && y != s[k] ==> y in s[k := x]
    ensures forall y :: y in s[k := x] ==> y == x || y in s
    ensures x in s[k := x]
  {
    assert s == s[..k] + [s[k]] + s[k+1..];
    assert s[k := x] == s[..k] + [x] + s[k+1..];
  }

  lemma ConsParts<T>(x: T, s: seq<T>)
    ensures [x] + s != [] && |[x] + s| == |s| + 1 && ([x] + s)[0] == x && ([x] + s)[1..] == s
  {
  }
}
