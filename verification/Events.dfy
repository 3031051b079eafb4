/** A module's queue of events, in order of priority, with an index of the
    last event of each priority. */
module Events {
  import opened Lists

  const NBR_OF_PRIORITY_LEVELS := 16

  /** A place in the queue. An express event is a reply to the query that is
      being waited for: it goes to the front and is in no priority's line. */
  class Elt {
    const evt: int
    ghost const priority: nat
    ghost const express: bool

    constructor (evt: int, ghost priority: nat, ghost express: bool)
      ensures this.evt == evt && this.priority == priority && this.express == express
    {
      this.evt, this.priority, this.express := evt, priority, express;
    }
  }

  /** e is in the line of the events of priority p. */
  ghost predicate InLine(e: Elt, p: nat) {
    !e.express && e.priority == p
  }

  /** The events of priority p, in order. */
  ghost function Line(s: seq<Elt>, p: nat): (r: seq<Elt>)
    ensures forall e :: e in r ==> e in s && InLine(e, p)
    ensures forall e :: e in s && InLine(e, p) ==> e in r
  {
    if s == [] then []
    else if InLine(s[|s|-1], p) then Line(s[..|s|-1], p) + [s[|s|-1]]
    else Line(s[..|s|-1], p)
  }

  ghost predicate ByPriority(s: seq<Elt>) {
    forall i, j :: 0 <= i < j < |s| && !s[i].express && !s[j].express ==> s[i].priority <= s[j].priority
  }

  /** k is behind every event of priority p or a more urgent one, and no further. */
  ghost predicate Behind(s: seq<Elt>, p: nat, k: nat) {
    && k <= |s|
    && (k > 0 ==> !s[k-1].express && s[k-1].priority <= p)
    && (forall j :: k <= j < |s| && !s[j].express ==> s[j].priority > p)
  }

  /** There is one such place. */
  lemma BehindIsUnique(s: seq<Elt>, p: nat, k: nat, l: nat)
    requires Behind(s, p, k) && Behind(s, p, l)
    ensures k == l
  {
  }

  lemma {:induction false} LineConcat(a: seq<Elt>, b: seq<Elt>, p: nat)
    ensures Line(a + b, p) == Line(a, p) + Line(b, p)
  {
    if b == [] {
      assert a + b == a;
    } else {
      assert (a + b)[..|a + b|-1] == a + b[..|b|-1];
      LineConcat(a, b[..|b|-1], p);
    }
  }

  lemma LineAppend(s: seq<Elt>, e: Elt, p: nat)
    ensures Line(s + [e], p) == Line(s, p) + if InLine(e, p) then [e] else []
  {
    assert (s + [e])[..|s|] == s;
  }

  lemma {:induction false} NoLine(s: seq<Elt>, p: nat)
    requires forall i :: 0 <= i < |s| ==> !InLine(s[i], p)
    ensures Line(s, p) == []
  {
    if s != [] { NoLine(s[..|s|-1], p); }
  }

  lemma {:induction false} LineInsert(s: seq<Elt>, e: Elt, k: nat, p: nat)
    requires k <= |s|
    ensures Line(InsertAt(s, e, k), p) == Line(s[..k], p) + (if InLine(e, p) then [e] else []) + Line(s[k..], p)
    ensures Line(s, p) == Line(s[..k], p) + Line(s[k..], p)
  {
    var a, b := s[..k], s[k..];
    LineAppend(a, e, p);
    LineConcat(a + [e], b, p);
    LineConcat(a, b, p);
    assert s == a + b;
  }

  lemma InsertByPriority(s: seq<Elt>, e: Elt, k: nat)
    requires ByPriority(s) && k <= |s|
    requires !e.express ==> forall i :: 0 <= i < k && !s[i].express ==> s[i].priority <= e.priority
    requires !e.express ==> forall i :: k <= i < |s| && !s[i].express ==> e.priority <= s[i].priority
    ensures ByPriority(InsertAt(s, e, k))
  {
    var r := InsertAt(s, e, k);
    forall i, j | 0 <= i < j < |r| && !r[i].express && !r[j].express ensures r[i].priority <= r[j].priority {
      assert i != k ==> r[i] == s[if i < k then i else i - 1];
      assert j != k ==> r[j] == s[if j < k then j else j - 1];
    }
  }

  /** An ordinary event goes to the end of its line and disturbs no other. */
  lemma OrdinaryInsert(s: seq<Elt>, e: Elt, k: nat, p: nat)
    requires ByPriority(s) && !e.express && Behind(s, e.priority, k)
    ensures ByPriority(InsertAt(s, e, k))
    ensures Line(InsertAt(s, e, k), p) == Line(s, p) + if p == e.priority then [e] else []
  {
    forall i | 0 <= i < k && !s[i].express ensures s[i].priority <= e.priority {
      assert i < k - 1 ==> s[i].priority <= s[k-1].priority;
    }
    InsertByPriority(s, e, k);
    LineInsert(s, e, k, p);
    if p == e.priority { NoLine(s[k..], p); }
  }

  /** An urgent event goes to the head of the line of priority 0. */
  lemma UrgentInsert(s: seq<Elt>, e: Elt, p: nat)
    requires ByPriority(s) && InLine(e, 0)
    ensures ByPriority(InsertAt(s, e, 0))
    ensures Line(InsertAt(s, e, 0), p) == (if p == 0 then [e] else []) + Line(s, p)
  {
    InsertByPriority(s, e, 0);
    LineInsert(s, e, 0, p);
  }

  /** An express event is in nobody's way. */
  lemma ExpressInsert(s: seq<Elt>, e: Elt, p: nat)
    requires ByPriority(s) && e.express
    ensures ByPriority(InsertAt(s, e, 0))
    ensures Line(InsertAt(s, e, 0), p) == Line(s, p)
  {
    InsertByPriority(s, e, 0);
    LineInsert(s, e, 0, p);
  }

  // ---- The index of last events -------------------------------------------------------------

  /** last is the last event in the line of priority p, if there is any. */
  ghost predicate LastOf(s: seq<Elt>, p: nat, last: Elt?) {
    last == if Line(s, p) == [] then null else Line(s, p)[|Line(s, p)|-1]
  }

  ghost predicate Indexed(s: seq<Elt>, last: seq<Elt?>) {
    |last| == NBR_OF_PRIORITY_LEVELS && forall p :: 0 <= p < |last| ==> LastOf(s, p, last[p])
  }

  /** Where the last event of a line stands, no event of that line follows. */
  lemma {:induction false} LastPosition(s: seq<Elt>, p: nat) returns (i: nat)
    requires Line(s, p) != []
    ensures i < |s| && s[i] == Line(s, p)[|Line(s, p)|-1] && InLine(s[i], p)
    ensures forall j :: i < j < |s| ==> !InLine(s[j], p)
  {
    if InLine(s[|s|-1], p) {
      i := |s| - 1;
    } else {
      i := LastPosition(s[..|s|-1], p);
    }
  }

  /** The last event of the least urgent line up to p is the last event up to p. */
  lemma BehindLast(s: seq<Elt>, p: nat, q: nat) returns (i: nat)
    requires ByPriority(s) && q <= p && Line(s, q) != []
    requires forall r :: q < r <= p ==> Line(s, r) == []
    ensures i < |s| && s[i] == Line(s, q)[|Line(s, q)|-1] && Behind(s, p, i + 1)
  {
    i := LastPosition(s, q);
    forall j | i < j < |s| && !s[j].express ensures s[j].priority > p {
      var r := s[j].priority;
      assert InLine(s[j], r) && s[j] in s;
      assert s[j] in Line(s, r);
    }
  }

  lemma BehindNothing(s: seq<Elt>, p: nat)
    requires forall r :: 0 <= r <= p ==> Line(s, r) == []
    ensures Behind(s, p, 0)
  {
    forall j | 0 <= j < |s| && !s[j].express ensures s[j].priority > p {
      var r := s[j].priority;
      assert InLine(s[j], r) && s[j] in s;
      assert s[j] in Line(s, r);
    }
  }

  /** lyst_insert_after. */
  function InsertAfter(s: seq<Elt>, x: Elt, e: Elt): (r: seq<Elt>) {
    if s == [] then [e] else if s[0] == x then [x, e] + s[1..] else [s[0]] + InsertAfter(s[1..], x, e)
  }

  lemma {:induction false} InsertAfterAt(s: seq<Elt>, i: nat, e: Elt)
    requires NoRepeats(s) && i < |s|
    ensures InsertAfter(s, s[i], e) == InsertAt(s, e, i + 1)
  {
    if i > 0 {
      assert s[0] != s[i];
      InsertAfterAt(s[1..], i - 1, e);
      assert InsertAt(s, e, i + 1) == [s[0]] + InsertAt(s[1..], e, i);
    } else {
      assert s[..1] == [s[0]];
    }
  }

  // ---- The queue ---------------------------------------------------------------------------------

  class EventQueue {
    var list: seq<Elt>
    const lastForPriority: array<Elt?>
    var query: int

    ghost predicate Valid()
      reads this, lastForPriority
    {
      NoRepeats(list) && ByPriority(list) && Indexed(list, lastForPriority[..])
    }

    constructor ()
      ensures Valid() && list == [] && query == 0 && fresh(lastForPriority)
    {
      list, query := [], 0;
      lastForPriority := new Elt?[NBR_OF_PRIORITY_LEVELS](_ => null);
    }

    /** insertAmsEvent's search: the place behind the events at least as urgent. */
    method PlaceFor(elt: Elt, priority: nat) returns (s: seq<Elt>, ghost k: nat)
      requires Valid() && priority < NBR_OF_PRIORITY_LEVELS
      ensures Behind(list, priority, k) && s == InsertAt(list, elt, k)
    {
      var i: nat := priority + 1;
      while i > 0 && lastForPriority[i-1] == null
        invariant 0 <= i <= priority + 1
        invariant forall r: nat :: i <= r <= priority ==> Line(list, r) == []
      {
        assert LastOf(list, i - 1, lastForPriority[..][i-1]);
        i := i - 1;
      }
      if i == 0 {
        BehindNothing(list, priority);
        s, k := [elt] + list, 0;
      } else {
        assert LastOf(list, i - 1, lastForPriority[..][i-1]);
        ghost var j := BehindLast(list, priority, i - 1);
        InsertAfterAt(list, j, elt);
        s, k := InsertAfter(list, lastForPriority[i-1], elt), j + 1;
      }
    }

    /** insertAmsEvent. */
    method InsertAmsEvent(elt: Elt, priority: nat)
      requires Valid() && priority < NBR_OF_PRIORITY_LEVELS && elt !in list && InLine(elt, priority)
      modifies this`list, lastForPriority
      ensures Valid() && Enqueued(old(list), list, elt, false)
    {
      ghost var was, last := list, lastForPriority[..];
      var s, k := PlaceFor(elt, priority);
      OrdinaryEnqueued(was, elt, k);
      IndexAppend(was, s, elt, last);
      list := s;
      lastForPriority[priority] := elt;
      assert lastForPriority[..] == last[priority := elt];
    }

    /** Events of priority 0 stop event loops and go to the front. The reply to
        the query being waited for goes to the front as well, and ends the wait. */
    method EnqueueAmsEvent(evt: int, isReply: bool, responseNbr: int, priority: nat) returns (elt: Elt)
      requires Valid() && priority < NBR_OF_PRIORITY_LEVELS
      modifies this`list, this`query, lastForPriority
      ensures Valid() && fresh(elt) && elt.evt == evt && elt.priority == priority
      ensures elt.express <==> priority != 0 && old(query) != 0 && isReply && responseNbr == old(query)
      ensures Enqueued(old(list), list, elt, priority == 0)
      ensures query == if elt.express then 0 else old(query)
    {
      if priority == 0 {
        elt := new Elt(evt, 0, false);
        UrgentEnqueued(list, elt);
        IndexPrepend(list, elt, lastForPriority[..]);
        list := InsertAt(list, elt, 0);
        if lastForPriority[0] == null { lastForPriority[0] := elt; }
      } else if query != 0 && isReply && responseNbr == query {
        elt := new Elt(evt, priority, true);
        ExpressEnqueued(list, elt);
        IndexExpress(list, elt, lastForPriority[..]);
        list := InsertAt(list, elt, 0);
        query := 0;
      } else {
        elt := new Elt(evt, priority, false);
        InsertAmsEvent(elt, priority);
      }
    }

    /** noteEventDequeued and the removal of the first event. */
    method DequeueAmsEvent() returns (elt: Elt)
      requires Valid() && list != []
      modifies this`list, lastForPriority
      ensures Valid() && [elt] + list == old(list)
      ensures forall p :: Line(old(list), p) == (if InLine(elt, p) then [elt] else []) + Line(list, p)
    {
      elt := list[0];
      ghost var last := lastForPriority[..];
      IndexOnce(list, last, elt);
      NoteEventDequeued(elt);
      IndexTail(list, last, lastForPriority[..]);
      forall p: nat ensures Line(list, p) == (if InLine(elt, p) then [elt] else []) + Line(list[1..], p) {
        LineTail(list, p);
      }
      list := list[1..];
    }

    method NoteEventDequeued(elt: Elt)
      requires lastForPriority.Length == NBR_OF_PRIORITY_LEVELS
      requires forall p, q :: 0 <= p < q < lastForPriority.Length && lastForPriority[p] == elt
                 ==> lastForPriority[q] != elt
      modifies lastForPriority
      ensures forall p :: 0 <= p < lastForPriority.Length ==>
        lastForPriority[p] == if old(lastForPriority[p]) == elt then null else old(lastForPriority[p])
    {
      for i := 0 to lastForPriority.Length
        invariant forall p :: 0 <= p < i ==> lastForPriority[p] == old(lastForPriority[p]) != elt
        invariant forall p :: i <= p < lastForPriority.Length ==> lastForPriority[p] == old(lastForPriority[p])
      {
        if lastForPriority[i] == elt {
          lastForPriority[i] := null;
          break;
        }
      }
    }
  }

  /** r is s with e in its place: at the front if e is urgent or express, and
      otherwise at the end of its line; every other line is as it was. */
  ghost predicate Enqueued(s: seq<Elt>, r: seq<Elt>, e: Elt, urgent: bool) {
    && (exists k :: 0 <= k <= |s| && r == InsertAt(s, e, k))
    && (urgent || e.express ==> r == [e] + s)
    && (forall p: nat :: p < NBR_OF_PRIORITY_LEVELS ==> LineAfter(s, r, e, urgent, p))
  }

  ghost predicate LineAfter(s: seq<Elt>, r: seq<Elt>, e: Elt, urgent: bool, p: nat) {
    Line(r, p) ==
      if !InLine(e, p) then Line(s, p) else if urgent then [e] + Line(s, p) else Line(s, p) + [e]
  }

  lemma InsertNoRepeats(s: seq<Elt>, e: Elt, k: nat)
    requires NoRepeats(s) && e !in s && k <= |s|
    ensures NoRepeats(InsertAt(s, e, k))
  {
    var r := InsertAt(s, e, k);
    forall i, j | 0 <= i < j < |r| ensures r[i] != r[j] {
      assert i != k ==> r[i] == s[if i < k then i else i - 1];
      assert j != k ==> r[j] == s[if j < k then j else j - 1];
    }
  }

  lemma OrdinaryEnqueued(s: seq<Elt>, e: Elt, k: nat)
    requires NoRepeats(s) && ByPriority(s) && e !in s && !e.express && Behind(s, e.priority, k)
    ensures var r := InsertAt(s, e, k); NoRepeats(r) && ByPriority(r) && Enqueued(s, r, e, false)
  {
    InsertNoRepeats(s, e, k);
    forall p: nat ensures ByPriority(InsertAt(s, e, k)) && LineAfter(s, InsertAt(s, e, k), e, false, p) {
      OrdinaryInsert(s, e, k, p);
    }
  }

  lemma UrgentEnqueued(s: seq<Elt>, e: Elt)
    requires NoRepeats(s) && ByPriority(s) && e !in s && InLine(e, 0)
    ensures var r := InsertAt(s, e, 0); NoRepeats(r) && ByPriority(r) && Enqueued(s, r, e, true)
  {
    InsertNoRepeats(s, e, 0);
    forall p: nat ensures ByPriority(InsertAt(s, e, 0)) && LineAfter(s, InsertAt(s, e, 0), e, true, p) {
      UrgentInsert(s, e, p);
    }
  }

  lemma ExpressEnqueued(s: seq<Elt>, e: Elt)
    requires NoRepeats(s) && ByPriority(s) && e !in s && e.express
    ensures var r := InsertAt(s, e, 0); NoRepeats(r) && ByPriority(r) && Enqueued(s, r, e, false)
  {
    InsertNoRepeats(s, e, 0);
    forall p: nat ensures ByPriority(InsertAt(s, e, 0)) && LineAfter(s, InsertAt(s, e, 0), e, false, p) {
      ExpressInsert(s, e, p);
    }
  }

  lemma IndexAppend(s: seq<Elt>, r: seq<Elt>, e: Elt, last: seq<Elt?>)
    requires Indexed(s, last) && !e.express && e.priority < NBR_OF_PRIORITY_LEVELS && Enqueued(s, r, e, false)
    ensures Indexed(r, last[e.priority := e])
  {
    var last' := last[e.priority := e];
    forall p: nat | p < |last'| ensures LastOf(r, p, last'[p]) {
      assert LineAfter(s, r, e, false, p) && LastOf(s, p, last[p]);
    }
  }

  lemma IndexPrepend(s: seq<Elt>, e: Elt, last: seq<Elt?>)
    requires Indexed(s, last) && InLine(e, 0) && Enqueued(s, InsertAt(s, e, 0), e, true)
    ensures Indexed(InsertAt(s, e, 0), if last[0] == null then last[0 := e] else last)
  {
    var r, last' := InsertAt(s, e, 0), if last[0] == null then last[0 := e] else last;
    forall p: nat | p < |last'| ensures LastOf(r, p, last'[p]) {
      assert LineAfter(s, r, e, true, p) && LastOf(s, p, last[p]);
    }
  }

  lemma IndexExpress(s: seq<Elt>, e: Elt, last: seq<Elt?>)
    requires Indexed(s, last) && e.express && Enqueued(s, InsertAt(s, e, 0), e, false)
    ensures Indexed(InsertAt(s, e, 0), last)
  {
    var r := InsertAt(s, e, 0);
    forall p: nat | p < |last| ensures LastOf(r, p, last[p]) {
      assert LineAfter(s, r, e, false, p) && LastOf(s, p, last[p]);
    }
  }

  lemma LineTail(s: seq<Elt>, p: nat)
    requires s != []
    ensures Line(s, p) == (if InLine(s[0], p) then [s[0]] else []) + Line(s[1..], p)
  {
    LineConcat([s[0]], s[1..], p);
    LineAppend([], s[0], p);
    assert [] + [s[0]] == [s[0]];
    assert s == [s[0]] + s[1..];
  }

  /** An event is in the index at its own priority or not at all. */
  lemma IndexOnce(s: seq<Elt>, last: seq<Elt?>, e: Elt)
    requires Indexed(s, last)
    ensures forall p :: 0 <= p < |last| && last[p] == e ==> p == e.priority
  {
    forall p | 0 <= p < |last| && last[p] == e ensures p == e.priority {
      assert LastOf(s, p, last[p]);
      assert e in Line(s, p);
    }
  }

  /** With its first event gone from the index, the index is that of the rest. */
  lemma IndexTail(s: seq<Elt>, last: seq<Elt?>, last': seq<Elt?>)
    requires NoRepeats(s) && s != [] && Indexed(s, last) && |last'| == |last|
    requires forall p :: 0 <= p < |last| ==> last'[p] == if last[p] == s[0] then null else last[p]
    ensures Indexed(s[1..], last')
  {
    forall p: nat | p < |last'| ensures LastOf(s[1..], p, last'[p]) {
      LineTail(s, p);
      assert LastOf(s, p, last[p]);
      assert s[0] !in s[1..];
    }
  }

  /** The first event is express, or is the first in its line and no other
      event in line is more urgent. */
  lemma FrontIsUrgent(s: seq<Elt>)
    requires ByPriority(s) && s != [] && !s[0].express
    ensures Line(s, s[0].priority) != [] && Line(s, s[0].priority)[0] == s[0]
    ensures forall p: nat :: p < s[0].priority ==> Line(s, p) == []
  {
    LineTail(s, s[0].priority);
    forall p: nat | p < s[0].priority ensures Line(s, p) == [] {
      forall i | 0 <= i < |s| ensures !InLine(s[i], p) {
        assert i > 0 && !s[i].express ==> s[0].priority <= s[i].priority;
      }
      NoLine(s, p);
    }
  }
}
