/** The units of a venture: a tree of pointers that is to mirror the prefix
    order on unit names. */
module Units {
  import opened Lists

  const MAX_UNIT_NAME := 32

  /** Unit numbers and names. */
  type Names = map<nat, string>

  ghost predicate UniqueNames(names: Names) {
    forall i, j :: i in names && j in names && names[i] == names[j] ==> i == j
  }

  /** Unit a lies within unit b: b's name is a prefix of a's. */
  predicate Within(names: Names, a: nat, b: nat) {
    a in names && b in names && names[b] <= names[a]
  }

  /** p has the longest name among the proper prefixes of i's name. */
  ghost predicate IsParent(names: Names, p: nat, i: nat) {
    && p in names && i in names && names[p] < names[i]
    && forall q :: q in names && names[q] < names[i] ==> |names[q]| <= |names[p]|
  }

  /** Two prefixes of one name are comparable. */
  lemma PrefixesCompare(a: string, b: string, c: string)
    requires a <= c && b <= c
    ensures |a| <= |b| ==> a <= b
  {
  }

  /** Inserting unit n below p: exactly the children of p that n's name is a
      prefix of become children of n, and nobody else moves. */
  lemma InsertParent(names: Names, n: nat, name: string, p: nat, i: nat, q: nat)
    requires UniqueNames(names) && n !in names && Free(names, name)
    requires p in names && names[p] < name
    requires forall j :: j in names && names[j] < name ==> |names[j]| <= |names[p]|
    requires IsParent(names, q, i)
    ensures IsParent(names[n := name], if q == p && name < names[i] then n else q, i)
  {
    if name < names[i] {
      PrefixesCompare(names[q], name, names[i]);
      PrefixesCompare(name, names[q], names[i]);
      PrefixesCompare(names[p], names[q], names[i]);
      if q == p {
        forall j | j in names && names[j] < names[i] ensures |names[j]| <= |name| {
        }
      } else {
        assert |names[q]| > |name|;
      }
    }
  }

  /** Removing unit n: its children become children of its parent. */
  lemma RemoveParent(names: Names, n: nat, p: nat, i: nat, q: nat)
    requires UniqueNames(names) && IsParent(names, p, n) && IsParent(names, q, i) && i != n
    ensures IsParent(names - {n}, if q == n then p else q, i)
  {
    if q == n {
      forall j | j in names - {n} && names[j] < names[i] ensures |names[j]| <= |names[p]| {
        PrefixesCompare(names[j], names[n], names[i]);
        if names[j] != names[n] { assert names[j] < names[n]; }
      }
    }
  }

  // ---- The pointers -------------------------------------------------------------------

  class Unit {
    const nbr: nat
    const name: string
    var superunit: Unit?
    var subunits: seq<Unit>

    constructor (nbr: nat, name: string)
      ensures this.nbr == nbr && this.name == name && superunit == null && subunits == []
    {
      this.nbr, this.name := nbr, name;
      superunit, subunits := null, [];
    }
  }

  ghost function Present(us: seq<Unit?>): set<Unit> {
    set u: Unit | u in us
  }

  ghost function NamesOf(us: seq<Unit?>): Names {
    map i: nat | i < |us| && us[i] != null :: us[i].name
  }

  /** Units sit at their numbers; unit 0 is the root and has the empty name. */
  ghost predicate Table(us: seq<Unit?>) {
    && |us| > 0 && us[0] != null && us[0].name == ""
    && (forall i :: 0 <= i < |us| && us[i] != null ==> us[i].nbr == i)
    && UniqueNames(NamesOf(us))
  }

  /** The pointers of the units in a table. */
  datatype Shape = Shape(us: seq<Unit?>, sup: map<Unit, Unit?>, subs: map<Unit, seq<Unit>>)

  ghost function ShapeOf(us: seq<Unit?>): Shape
    reads Present(us)
  {
    Shape(us, map u: Unit | u in us :: u.superunit, map u: Unit | u in us :: u.subunits)
  }

  /** s shows the pointers as they are. */
  ghost predicate Mirrored(s: Shape)
    reads Present(s.us)
  {
    forall u: Unit :: u in s.us ==>
      u in s.sup && s.sup[u] == u.superunit && u in s.subs && s.subs[u] == u.subunits
  }

  lemma ShapeOfIsMirrored(us: seq<Unit?>)
    ensures Mirrored(ShapeOf(us))
  {
  }

  ghost predicate SuperOk(s: Shape, u: Unit) {
    && u in s.us && u in s.sup
    && if u.nbr == 0 then s.sup[u] == null
       else s.sup[u] != null && s.sup[u] in s.us && IsParent(NamesOf(s.us), s.sup[u].nbr, u.nbr)
  }

  /** The subunits of u are the units whose superunit is u, once each. */
  ghost predicate SubsOk(s: Shape, u: Unit) {
    && u in s.subs && NoRepeats(s.subs[u])
    && forall v: Unit :: v in s.subs[u] ==> v in s.us && v in s.sup && s.sup[v] == u
  }

  ghost predicate IsSubOfSuper(s: Shape, u: Unit) {
    u in s.sup && (s.sup[u] != null ==> s.sup[u] in s.subs && u in s.subs[s.sup[u]])
  }

  ghost predicate Linked(s: Shape) {
    && Table(s.us)
    && forall u: Unit :: u in s.us ==> SuperOk(s, u) && SubsOk(s, u) && IsSubOfSuper(s, u)
  }

  lemma RootAlone(s: Shape, root: Unit)
    requires |s.us| > 0 && s.us[0] == root && forall i :: 0 < i < |s.us| ==> s.us[i] == null
    requires root.nbr == 0 && root.name == ""
    requires root in s.sup && s.sup[root] == null && root in s.subs && s.subs[root] == []
    ensures Linked(s) && NamesOf(s.us) == map[0 := ""]
    ensures forall u: Unit :: u in s.us <==> u == root
  {
    assert NamesOf(s.us) == map[0 := ""];
  }

  /** Names as C strings compare them: character by character. */
  datatype Match = Prefix | Extension | Apart

  /** Prefix: a's name is a prefix of b, or equal; Extension: b is a proper
      prefix of a. */
  method Compare(a: string, b: string) returns (m: Match)
    ensures m == if a <= b then Prefix else if b <= a then Extension else Apart
  {
    var j := 0;
    while true
      invariant j <= |a| && j <= |b| && a[..j] == b[..j]
      decreases |a| - j
    {
      if j == |a| { return Prefix; }
      if j == |b| { return Extension; }
      if a[j] != b[j] { return Apart; }
      j := j + 1;
    }
  }

  /** s without its first occurrence of u. */
  function Detach(s: seq<Unit>, u: Unit): (r: seq<Unit>)
    ensures forall v: Unit :: v in r ==> v in s
    ensures forall v: Unit :: v in s && v != u ==> v in r
  {
    if s == [] then [] else if s[0] == u then s[1..] else [s[0]] + Detach(s[1..], u)
  }

  lemma {:induction false} DetachOnce(s: seq<Unit>, u: Unit)
    requires NoRepeats(s)
    ensures NoRepeats(Detach(s, u)) && u !in Detach(s, u)
  {
    if s != [] {
      assert s[0] !in s[1..];
      DetachOnce(s[1..], u);
    }
  }

  class Venture {
    var units: array<Unit?>

    ghost var shape: Shape

    ghost predicate Valid()
      reads this, units, Present(units[..])
    {
      Linked(shape) && shape.us == units[..] && Mirrored(shape)
    }

    ghost function Named(): Names
      reads this
    {
      NamesOf(shape.us)
    }

    /** The root unit of a new venture. */
    constructor (size: nat)
      requires size > 0
      ensures Valid() && fresh(units) && fresh(Present(units[..])) && units.Length == size
      ensures Named() == map[0 := ""]
    {
      var root := new Unit(0, "");
      units := new Unit?[size](i => if i == 0 then root else null);
      shape := Shape([], map[], map[]);
      new;
      shape := ShapeOf(units[..]);
      assert shape.us[0] == root;
      RootAlone(shape, root);
    }

    /** subunitOf: climbs from unit a in search of unit b. */
    method SubunitOf(a: nat, b: nat) returns (r: bool)
      requires Valid() && a < units.Length
      ensures r <==> Within(Named(), a, b)
    {
      ghost var us, names := shape.us, Named();
      var u := units[a];
      if u == null { return false; }
      while u != null
        invariant u != null ==> u in us && u.nbr in names && names[u.nbr] <= names[a]
        invariant b in names && names[b] <= names[a] ==> u != null && names[b] <= names[u.nbr]
        decreases if u != null then |names[u.nbr]| + 1 else 0
      {
        if u.nbr == b { return true; }
        assert SuperOk(shape, u);
        assert names[u.nbr] == u.name;
        if b in names && names[b] <= names[a] {
          assert names[b] != names[u.nbr];
          assert names[b] < names[u.nbr];
        }
        var p := u.superunit;
        if b in names && names[b] <= names[a] {
          PrefixesCompare(names[b], names[p.nbr], names[u.nbr]);
        }
        u := p;
      }
      return false;
    }

    /** What createUnit's search knows after the first i units. */
    ghost predicate Searched(
      us: seq<Unit?>, name: string, i: nat, superunit: Unit, best: nat, candidates: seq<Unit>)
    {
      && i <= |us| && superunit in us && superunit.name <= name && best == |superunit.name|
      && (forall v: Unit :: v in us[..i] && v.name <= name ==> |v.name| <= best)
      && NoRepeats(candidates)
      && (forall v: Unit :: v in candidates ==> v in us[..i] && name < v.name)
      && (forall v: Unit :: v in us[..i] && name < v.name ==> v in candidates)
    }

    lemma SearchedMore(
      us: seq<Unit?>, name: string, i: nat, superunit: Unit, best: nat, candidates: seq<Unit>)
      requires Table(us) && i < |us| && Searched(us, name, i, superunit, best, candidates)
      ensures us[i] == null ==> Searched(us, name, i + 1, superunit, best, candidates)
      ensures us[i] != null ==>
        if us[i].name <= name then
          if |us[i].name| > best then Searched(us, name, i + 1, us[i], |us[i].name|, candidates)
          else Searched(us, name, i + 1, superunit, best, candidates)
        else if name <= us[i].name then
          Searched(us, name, i + 1, superunit, best, candidates + [us[i]])
        else Searched(us, name, i + 1, superunit, best, candidates)
    {
      assert us[..i+1] == us[..i] + [us[i]];
      if us[i] != null {
        assert us[i] !in us[..i];
      }
    }

    /** The search of createUnit: the unit with the longest name among the
        prefixes of name, and the units whose names extend it. */
    method Search(name: string) returns (superunit: Unit, best: nat, candidates: seq<Unit>)
      requires Valid() && name != ""
      ensures superunit in units[..] && superunit.name <= name && best == |superunit.name|
      ensures forall v: Unit :: v in units[..] && v.name <= name ==> |v.name| <= best
      ensures NoRepeats(candidates)
      ensures forall v: Unit :: v in candidates <==> v in units[..] && name < v.name
    {
      superunit, best, candidates := units[0], 0, [];
      ghost var us := units[..];
      for i := 0 to units.Length
        invariant Searched(us, name, i, superunit, best, candidates)
      {
        var unit := units[i];
        SearchedMore(us, name, i, superunit, best, candidates);
        if unit != null {
          var m := Compare(unit.name, name);
          match m
          case Prefix =>
            if |unit.name| > best { best, superunit := |unit.name|, unit; }
          case Extension =>
            candidates := candidates + [unit];
          case Apart =>
        }
      }
      assert us[..|us|] == us;
    }

    /** The loop of initializeUnit: candidates that are direct subunits of the
        new unit's superunit move to the new unit. */
    method Adopt(unit: Unit, superunit: Unit, candidates: seq<Unit>) returns (subunits: seq<Unit>)
      requires NoRepeats(candidates) && NoRepeats(superunit.subunits)
      requires unit !in candidates && superunit !in candidates && unit != superunit
      requires forall v: Unit :: v in candidates && v.superunit == superunit ==> v in superunit.subunits
      modifies superunit`subunits, (set v: Unit | v in candidates)`superunit
      ensures forall v: Unit :: v in candidates ==>
        v.superunit == if old(v.superunit) == superunit then unit else old(v.superunit)
      ensures NoRepeats(superunit.subunits)
      ensures forall v: Unit :: v in superunit.subunits <==>
        v in old(superunit.subunits) && !(v in candidates && old(v.superunit) == superunit)
      ensures NoRepeats(subunits)
      ensures forall v: Unit :: v in subunits <==> v in candidates && old(v.superunit) == superunit
    {
      subunits := [];
      for k := 0 to |candidates|
        invariant forall v: Unit :: v in candidates ==>
          v.superunit == if v in candidates[..k] && old(v.superunit) == superunit then unit else old(v.superunit)
        invariant NoRepeats(superunit.subunits)
        invariant forall v: Unit :: v in superunit.subunits <==>
          v in old(superunit.subunits) && !(v in candidates[..k] && old(v.superunit) == superunit)
        invariant NoRepeats(subunits)
        invariant forall v: Unit :: v in subunits <==> v in candidates[..k] && old(v.superunit) == superunit
      {
        var subunit := candidates[k];
        assert candidates[..k+1] == candidates[..k] + [subunit];
        assert subunit !in candidates[..k];
        if subunit.superunit == superunit {
          DetachOnce(superunit.subunits, subunit);
          superunit.subunits := Detach(superunit.subunits, subunit);
          subunit.superunit := unit;
          subunits := subunits + [subunit];
        }
      }
      assert candidates[..|candidates|] == candidates;
    }

    /** initializeUnit's work on the pointers. */
    method LinkIn(unit: Unit, superunit: Unit, candidates: seq<Unit>)
      requires NoRepeats(candidates) && NoRepeats(superunit.subunits)
      requires unit !in candidates && superunit !in candidates && unit != superunit
      requires unit !in superunit.subunits
      requires forall v: Unit :: v in candidates && v.superunit == superunit ==> v in superunit.subunits
      modifies unit, superunit`subunits, (set v: Unit | v in candidates)`superunit
      ensures unit.superunit == superunit
      ensures forall v: Unit :: v in candidates ==>
        v.superunit == if old(v.superunit) == superunit then unit else old(v.superunit)
      ensures NoRepeats(superunit.subunits)
      ensures forall v: Unit :: v in superunit.subunits <==>
        v == unit || (v in old(superunit.subunits) && !(v in candidates && old(v.superunit) == superunit))
      ensures NoRepeats(unit.subunits)
      ensures forall v: Unit :: v in unit.subunits <==> v in candidates && old(v.superunit) == superunit
    {
      unit.superunit := superunit;
      superunit.subunits := superunit.subunits + [unit];
      var subunits := Adopt(unit, superunit, candidates);
      unit.subunits := subunits;
    }

    method InitializeUnit(nbr: nat, name: string, superunit: Unit, candidates: seq<Unit>) returns (unit: Unit)
      requires nbr < units.Length && units[nbr] == null && superunit in units[..]
      requires NoRepeats(superunit.subunits)
      requires NoRepeats(candidates) && superunit !in candidates
      requires forall v: Unit :: v in candidates && v.superunit == superunit ==> v in superunit.subunits
      requires forall v: Unit :: v in candidates ==> v in units[..]
      requires shape.us == units[..] && Mirrored(shape)
      modifies this`shape, units, Present(units[..])
      ensures units == old(units) && fresh(unit) && unit.nbr == nbr && unit.name == name
      ensures shape.us == units[..] && Mirrored(shape)
      ensures Inserted(old(shape), shape, superunit, candidates, unit)
    {
      ghost var s := shape;
      unit := new Unit(nbr, name);
      LinkIn(unit, superunit, candidates);
      units[nbr] := unit;
      ghost var s' := ShapeOf(units[..]);
      ShapeOfIsMirrored(units[..]);
      shape := s';
      assert s'.us == s.us[nbr := unit];
      assert unit in s'.us by { assert s'.us[nbr] == unit; }
      forall v: Unit | v in s.us ensures v in s'.us && Kept(s, s', superunit, candidates, unit, v) {
        var i :| 0 <= i < |s.us| && s.us[i] == v;
        assert s'.us[i] == v;
        if v in candidates {
          assert v.superunit == if old(v.superunit) == superunit then unit else old(v.superunit);
        }
      }
      forall v: Unit | v in s'.subs[superunit]
        ensures v == unit || (v in s.subs[superunit] && !Adopted(s, superunit, candidates, v)) {
      }
    }

    /** Where a unit of this name belongs; none if the name is in use. */
    method FindPlace(name: string) returns (free: bool, superunit: Unit, candidates: seq<Unit>)
      requires Valid() && name != ""
      ensures free == Free(Named(), name)
      ensures superunit in units[..]
      ensures NoRepeats(superunit.subunits)
      ensures free ==> Place(shape, superunit, candidates, name)
    {
      ghost var s := shape;
      var best;
      superunit, best, candidates := Search(name);
      assert SubsOk(s, superunit);
      free := best != |name|;
      if free {
        FoundPlace(s, superunit, candidates, name);
      } else {
        assert NamesOf(s.us)[superunit.nbr] == name;
        assert !Free(NamesOf(s.us), name);
      }
    }

    method CreateUnit(nbr: nat, name: string) returns (unit: Unit?)
      requires Valid()
      modifies this`shape, units, Present(units[..])
      ensures Valid() && units == old(units)
      ensures unit != null <==>
        0 < nbr < units.Length && nbr !in old(Named()) && 0 < |name| <= MAX_UNIT_NAME
          && forall i :: i in old(Named()) ==> old(Named())[i] != name
      ensures unit == null ==> shape == old(shape)
      ensures unit != null ==> fresh(unit) && units[..] == old(units[..])[nbr := unit]
      ensures unit != null ==> Named() == old(Named())[nbr := name]
    {
      ghost var s := shape;
      if !(0 < nbr < units.Length) || units[nbr] != null || !(0 < |name| <= MAX_UNIT_NAME) {
        return null;
      }
      var free, superunit, candidates := FindPlace(name);
      if !free { return null; }
      unit := InitializeUnit(nbr, name, superunit, candidates);
      InsertedLinked(s, shape, superunit, candidates, unit);
    }

    /** The loop of eraseUnit: the subunits of the erased unit go to the end
        of its superunit's list. */
    method Reattach(unit: Unit, superunit: Unit)
      requires NoRepeats(unit.subunits) && NoRepeats(superunit.subunits) && unit in superunit.subunits
      requires unit !in unit.subunits && superunit !in unit.subunits && unit != superunit
      requires forall v: Unit :: v in unit.subunits ==> v !in superunit.subunits
      modifies unit, superunit`subunits, (set v: Unit | v in unit.subunits)`superunit
      ensures unit.superunit == null && unit.subunits == []
      ensures forall v: Unit :: v in old(unit.subunits) ==> v.superunit == superunit
      ensures NoRepeats(superunit.subunits)
      ensures forall v: Unit :: v in superunit.subunits <==>
        (v in old(superunit.subunits) && v != unit) || v in old(unit.subunits)
    {
      ghost var was := superunit.subunits;
      var subs := unit.subunits;
      for k := 0 to |subs|
        invariant forall v: Unit :: v in subs[..k] ==> v.superunit == superunit
        invariant NoRepeats(superunit.subunits)
        invariant forall v: Unit :: v in superunit.subunits <==> v in was || v in subs[..k]
      {
        var subunit := subs[k];
        assert subs[..k+1] == subs[..k] + [subunit];
        assert subunit !in subs[..k];
        superunit.subunits := superunit.subunits + [subunit];
        subunit.superunit := superunit;
      }
      assert subs[..|subs|] == subs;
      DetachOnce(superunit.subunits, unit);
      superunit.subunits := Detach(superunit.subunits, unit);
      unit.subunits := [];
      unit.superunit := null;
    }

    /** eraseUnit's work on the pointers and the table. */
    method Unlink(unit: Unit, superunit: Unit)
      requires shape.us == units[..] && Mirrored(shape) && Erasable(shape, unit, superunit)
      modifies this`shape, units, Present(units[..])
      ensures units == old(units) && units[..] == old(units[..])[unit.nbr := null]
      ensures shape.us == units[..] && Mirrored(shape)
      ensures Erased(old(shape), shape, unit, superunit)
    {
      ghost var s := shape;
      Reattach(unit, superunit);
      units[unit.nbr] := null;
      ghost var s' := ShapeOf(units[..]);
      ShapeOfIsMirrored(units[..]);
      shape := s';
      assert s'.us == s.us[unit.nbr := null];
      RemovedTable(s.us, unit);
      forall v: Unit | v in s.us && v != unit ensures Spared(s, s', unit, v) {
      }
    }

    /** Any unit but the root. */
    method EraseUnit(unit: Unit)
      requires Valid() && unit in units[..] && unit.nbr != 0
      modifies this`shape, units, Present(units[..])
      ensures Valid() && units == old(units) && Named() == old(Named()) - {unit.nbr}
      ensures units[..] == old(units[..])[unit.nbr := null]
    {
      ghost var s := shape;
      ErasableUnit(s, unit);
      var superunit := unit.superunit;
      Unlink(unit, superunit);
      ErasedLinked(s, shape, unit, superunit);
    }
  }

  // ---- Insertion ----------------------------------------------------------------------

  /** What initializeUnit does to the pointers. */
  ghost predicate Inserted(s: Shape, s': Shape, superunit: Unit, candidates: seq<Unit>, unit: Unit) {
    && unit.nbr < |s.us| && s.us[unit.nbr] == null && unit !in s.us && superunit in s.us
    && s'.us == s.us[unit.nbr := unit]
    && unit in s'.sup && s'.sup[unit] == superunit
    && unit in s'.subs && NoRepeats(s'.subs[unit])
    && (forall v: Unit :: v in s'.subs[unit] ==> Adopted(s, superunit, candidates, v))
    && (forall v: Unit :: v in candidates && Adopted(s, superunit, candidates, v) ==> v in s'.subs[unit])
    && superunit in s.subs && superunit in s'.subs && NoRepeats(s'.subs[superunit])
    && unit in s'.subs[superunit]
    && (forall v: Unit :: v in s'.subs[superunit] ==>
          v == unit || (v in s.subs[superunit] && !Adopted(s, superunit, candidates, v)))
    && (forall v: Unit :: v in s.subs[superunit] && !Adopted(s, superunit, candidates, v) ==>
          v in s'.subs[superunit])
    && (forall v: Unit :: v in s.us ==> Kept(s, s', superunit, candidates, unit, v))
  }

  ghost predicate Adopted(s: Shape, superunit: Unit, candidates: seq<Unit>, v: Unit) {
    v in candidates && v in s.sup && s.sup[v] == superunit
  }

  ghost predicate Kept(s: Shape, s': Shape, superunit: Unit, candidates: seq<Unit>, unit: Unit, v: Unit) {
    && v in s.sup && v in s'.sup && v in s.subs && v in s'.subs
    && s'.sup[v] == (if Adopted(s, superunit, candidates, v) then unit else s.sup[v])
    && (v != superunit ==> s'.subs[v] == s.subs[v])
  }

  /** The situation in which createUnit calls initializeUnit, and its outcome. */
  ghost predicate Insertion(s: Shape, s': Shape, superunit: Unit, candidates: seq<Unit>, unit: Unit) {
    && Linked(s) && Inserted(s, s', superunit, candidates, unit) && unit.nbr > 0
    && superunit.name < unit.name
    && Free(NamesOf(s.us), unit.name)
    && (forall v: Unit :: v in s.us && v.name <= unit.name ==> |v.name| <= |superunit.name|)
    && (forall v: Unit :: v in candidates ==> v in s.us && unit.name < v.name)
    && (forall v: Unit :: v in s.us && unit.name < v.name ==> v in candidates)
  }

  lemma InsertedNew(s: Shape, s': Shape, superunit: Unit, candidates: seq<Unit>, unit: Unit)
    requires Insertion(s, s', superunit, candidates, unit)
    ensures SuperOk(s', unit) && SubsOk(s', unit) && IsSubOfSuper(s', unit)
  {
    UpdatedTable(s.us, unit);
    assert NamesOf(s.us)[superunit.nbr] == superunit.name;
    forall v: Unit | v in s'.subs[unit] ensures v in s'.us && v in s'.sup && s'.sup[v] == unit {
      assert Adopted(s, superunit, candidates, v);
      assert Kept(s, s', superunit, candidates, unit, v);
    }
  }

  lemma InsertedSuper(s: Shape, s': Shape, superunit: Unit, candidates: seq<Unit>, unit: Unit, w: Unit)
    requires Insertion(s, s', superunit, candidates, unit) && w in s.us
    ensures SuperOk(s', w)
  {
    UpdatedTable(s.us, unit);
    var names := NamesOf(s.us);
    assert SuperOk(s, w) && Kept(s, s', superunit, candidates, unit, w);
    assert names[w.nbr] == w.name && names[superunit.nbr] == superunit.name;
    if w.nbr != 0 {
      InsertParent(names, unit.nbr, unit.name, superunit.nbr, w.nbr, s.sup[w].nbr);
    }
  }

  lemma InsertedIsSub(s: Shape, s': Shape, superunit: Unit, candidates: seq<Unit>, unit: Unit, w: Unit)
    requires Insertion(s, s', superunit, candidates, unit) && w in s.us
    ensures IsSubOfSuper(s', w)
  {
    assert SuperOk(s, w) && IsSubOfSuper(s, w) && Kept(s, s', superunit, candidates, unit, w);
    if s.sup[w] != null {
      assert Kept(s, s', superunit, candidates, unit, s.sup[w]);
    }
  }

  lemma InsertedSubs(s: Shape, s': Shape, superunit: Unit, candidates: seq<Unit>, unit: Unit, w: Unit)
    requires Insertion(s, s', superunit, candidates, unit) && w in s.us
    ensures SubsOk(s', w)
  {
    UpdatedTable(s.us, unit);
    assert SubsOk(s, w) && Kept(s, s', superunit, candidates, unit, w);
    forall v: Unit | v in s'.subs[w] ensures v in s'.us && v in s'.sup && s'.sup[v] == w {
      if v != unit {
        assert v in s.subs[w];
        assert Kept(s, s', superunit, candidates, unit, v);
      }
    }
  }

  /** The new pointers mirror the new names. */
  lemma InsertedLinked(s: Shape, s': Shape, superunit: Unit, candidates: seq<Unit>, unit: Unit)
    requires Insertion(s, s', superunit, candidates, unit)
    ensures Linked(s') && NamesOf(s'.us) == NamesOf(s.us)[unit.nbr := unit.name]
  {
    UpdatedTable(s.us, unit);
    forall v: Unit | v in s'.us ensures SuperOk(s', v) && SubsOk(s', v) && IsSubOfSuper(s', v) {
      if v == unit {
        InsertedNew(s, s', superunit, candidates, unit);
      } else {
        InsertedSuper(s, s', superunit, candidates, unit, v);
        InsertedIsSub(s, s', superunit, candidates, unit, v);
        InsertedSubs(s, s', superunit, candidates, unit, v);
      }
    }
  }

  lemma UpdatedTable(us: seq<Unit?>, unit: Unit)
    requires Table(us) && 0 < unit.nbr < |us| && us[unit.nbr] == null
    requires Free(NamesOf(us), unit.name)
    ensures Table(us[unit.nbr := unit])
    ensures NamesOf(us[unit.nbr := unit]) == NamesOf(us)[unit.nbr := unit.name]
    ensures forall v: Unit :: v in us[unit.nbr := unit] <==> v == unit || v in us
  {
    var us' := us[unit.nbr := unit];
    assert us'[unit.nbr] == unit;
    assert NamesOf(us') == NamesOf(us)[unit.nbr := unit.name];
    forall v: Unit | v in us ensures v in us' { var i :| 0 <= i < |us| && us[i] == v; assert us'[i] == v; }
  }

  ghost predicate Free(names: Names, name: string) {
    forall i :: i in names ==> names[i] != name
  }

  /** What createUnit's search hands to initializeUnit. */
  ghost predicate Place(s: Shape, superunit: Unit, candidates: seq<Unit>, name: string) {
    && superunit in s.us && superunit.name < name
    && (forall v: Unit :: v in s.us && v.name <= name ==> |v.name| <= |superunit.name|)
    && NoRepeats(candidates) && superunit !in candidates && superunit in s.subs
    && (forall v: Unit :: v in candidates ==> v in s.us && name < v.name)
    && (forall v: Unit :: v in s.us && name < v.name ==> v in candidates)
    && (forall v: Unit :: v in candidates && v in s.sup && s.sup[v] == superunit ==> v in s.subs[superunit])
  }

  lemma FoundPlace(s: Shape, superunit: Unit, candidates: seq<Unit>, name: string)
    requires Linked(s) && superunit in s.us && superunit.name <= name && superunit.name != name
    requires forall v: Unit :: v in s.us && v.name <= name ==> |v.name| <= |superunit.name|
    requires NoRepeats(candidates) && forall v: Unit :: v in candidates <==> v in s.us && name < v.name
    ensures Place(s, superunit, candidates, name) && Free(NamesOf(s.us), name)
  {
    assert SubsOk(s, superunit);
    forall v: Unit | v in candidates && v in s.sup && s.sup[v] == superunit ensures v in s.subs[superunit] {
      assert IsSubOfSuper(s, v);
    }
    forall i | i in NamesOf(s.us) ensures NamesOf(s.us)[i] != name {
      assert s.us[i] in s.us;
    }
  }

  /** Following superunit pointers leads from u to v. */
  ghost predicate Climbs(s: Shape, u: Unit, v: Unit)
    requires Linked(s) && u in s.us
    decreases |u.name|
  {
    && SuperOk(s, u)
    && (u == v || (s.sup[u] != null && (SuperIsShorter(s, u); Climbs(s, s.sup[u], v))))
  }

  lemma SuperIsShorter(s: Shape, u: Unit)
    requires Linked(s) && u in s.us && u in s.sup && s.sup[u] != null
    ensures s.sup[u] in s.us && |s.sup[u].name| < |u.name|
    ensures IsParent(NamesOf(s.us), s.sup[u].nbr, u.nbr)
  {
    assert SuperOk(s, u);
    var p := s.sup[u];
    assert NamesOf(s.us)[p.nbr] == p.name && NamesOf(s.us)[u.nbr] == u.name;
  }

  /** Climbing is within: the pointers lead from u to v exactly if v's name is a
      prefix of u's. */
  lemma {:induction false} ClimbingIsWithin(s: Shape, u: Unit, v: Unit)
    requires Linked(s) && u in s.us && v in s.us
    ensures Climbs(s, u, v) <==> v.name <= u.name
    decreases |u.name|
  {
    assert SuperOk(s, u);
    var names := NamesOf(s.us);
    assert names[u.nbr] == u.name && names[v.nbr] == v.name;
    if u.name == v.name {
      assert u.nbr == v.nbr;
    } else if s.sup[u] != null {
      var p := s.sup[u];
      SuperIsShorter(s, u);
      assert names[p.nbr] == p.name;
      ClimbingIsWithin(s, p, v);
      if v.name < u.name { PrefixesCompare(v.name, p.name, u.name); }
    }
  }

  /** Inserting a unit changes no ancestry among the others: from each of them
      the new pointers lead to the same older units as before. */
  lemma AncestryKept(s: Shape, s': Shape, superunit: Unit, candidates: seq<Unit>, unit: Unit, a: Unit, b: Unit)
    requires Insertion(s, s', superunit, candidates, unit) && a in s.us && b in s.us
    ensures Linked(s') && a in s'.us
    ensures Climbs(s', a, b) <==> Climbs(s, a, b)
  {
    InsertedLinked(s, s', superunit, candidates, unit);
    UpdatedTable(s.us, unit);
    ClimbingIsWithin(s, a, b);
    ClimbingIsWithin(s', a, b);
  }

  /** So does erasing one. */
  lemma AncestrySpared(s: Shape, s': Shape, unit: Unit, superunit: Unit, a: Unit, b: Unit)
    requires Linked(s) && unit in s.us && unit.nbr > 0 && Erased(s, s', unit, superunit)
    requires a in s.us && b in s.us && a != unit && b != unit
    ensures Linked(s') && a in s'.us
    ensures Climbs(s', a, b) <==> Climbs(s, a, b)
  {
    ErasedLinked(s, s', unit, superunit);
    RemovedTable(s.us, unit);
    ClimbingIsWithin(s, a, b);
    ClimbingIsWithin(s', a, b);
  }

  // ---- Erasure ------------------------------------------------------------------------

  ghost predicate Erasable(s: Shape, unit: Unit, p: Unit) {
    && Table(s.us) && unit in s.us && unit.nbr != 0 && p in s.us && p != unit
    && unit in s.sup && s.sup[unit] == p
    && unit in s.subs && NoRepeats(s.subs[unit]) && p in s.subs && NoRepeats(s.subs[p])
    && unit in s.subs[p] && unit !in s.subs[unit] && p !in s.subs[unit]
    && (forall v: Unit :: v in s.subs[unit] ==> v in s.us && v in s.sup && s.sup[v] == unit && v !in s.subs[p])
    && (forall v: Unit :: v in s.us && v in s.sup && s.sup[v] == unit ==> v in s.subs[unit])
  }

  lemma ErasableUnit(s: Shape, unit: Unit)
    requires Linked(s) && unit in s.us && unit.nbr != 0
    ensures unit in s.sup && s.sup[unit] != null && Erasable(s, unit, s.sup[unit])
  {
    assert SuperOk(s, unit) && SubsOk(s, unit) && IsSubOfSuper(s, unit);
    var p := s.sup[unit];
    assert NamesOf(s.us)[p.nbr] == p.name && NamesOf(s.us)[unit.nbr] == unit.name;
    assert SuperOk(s, p) && SubsOk(s, p);
    forall v: Unit | v in s.us && v in s.sup && s.sup[v] == unit ensures v in s.subs[unit] {
      assert IsSubOfSuper(s, v);
    }
  }

  lemma RemovedTable(us: seq<Unit?>, unit: Unit)
    requires Table(us) && unit in us && unit.nbr > 0
    ensures unit.nbr < |us| && us[unit.nbr] == unit
    ensures Table(us[unit.nbr := null])
    ensures NamesOf(us[unit.nbr := null]) == NamesOf(us) - {unit.nbr}
    ensures forall v: Unit :: v in us[unit.nbr := null] <==> v in us && v != unit
  {
    var us' := us[unit.nbr := null];
    assert NamesOf(us') == NamesOf(us) - {unit.nbr};
    forall v: Unit | v in us && v != unit ensures v in us' { var i :| 0 <= i < |us| && us[i] == v; assert us'[i] == v; }
  }

  /** What eraseUnit does to the pointers: of a unit other than the erased one,
      and of the lists of subunits. */
  ghost predicate Spared(s: Shape, s': Shape, unit: Unit, v: Unit) {
    && v in s.sup && v in s'.sup && v in s.subs && v in s'.subs && unit in s.sup
    && s'.sup[v] == (if s.sup[v] == unit then s.sup[unit] else s.sup[v])
    && (v != s.sup[unit] ==> s'.subs[v] == s.subs[v])
  }

  ghost predicate Erased(s: Shape, s': Shape, unit: Unit, superunit: Unit) {
    && unit.nbr < |s.us| && s'.us == s.us[unit.nbr := null]
    && unit in s.sup && s.sup[unit] == superunit
    && (forall v: Unit :: v in s.us && v != unit ==> Spared(s, s', unit, v))
    && unit in s.subs && superunit in s.subs && superunit in s'.subs && NoRepeats(s'.subs[superunit])
    && (forall v: Unit :: v in s'.subs[superunit] ==> (v in s.subs[superunit] && v != unit) || v in s.subs[unit])
    && (forall v: Unit :: v in s.subs[superunit] && v != unit ==> v in s'.subs[superunit])
    && (forall v: Unit :: v in s.subs[unit] ==> v in s'.subs[superunit])
  }

  lemma ErasedSuper(s: Shape, s': Shape, unit: Unit, superunit: Unit, w: Unit)
    requires Linked(s) && unit in s.us && unit.nbr > 0 && Erased(s, s', unit, superunit)
    requires w in s.us && w != unit
    ensures SuperOk(s', w)
  {
    RemovedTable(s.us, unit);
    assert SuperOk(s, w) && SuperOk(s, unit) && Spared(s, s', unit, w);
    if w.nbr != 0 {
      RemoveParent(NamesOf(s.us), unit.nbr, superunit.nbr, w.nbr, s.sup[w].nbr);
    }
  }

  lemma ErasedSubs(s: Shape, s': Shape, unit: Unit, superunit: Unit, w: Unit)
    requires Linked(s) && unit in s.us && unit.nbr > 0 && Erased(s, s', unit, superunit)
    requires w in s.us && w != unit
    ensures SubsOk(s', w) && IsSubOfSuper(s', w)
  {
    RemovedTable(s.us, unit);
    assert SuperOk(s, w) && IsSubOfSuper(s, w) && SubsOk(s, w) && SubsOk(s, unit) && Spared(s, s', unit, w);
    forall v: Unit | v in s'.subs[w] ensures v in s'.us && v in s'.sup && s'.sup[v] == w {
      assert Spared(s, s', unit, v);
    }
    if s.sup[w] != null && s.sup[w] != unit {
      assert Spared(s, s', unit, s.sup[w]);
    }
  }

  lemma ErasedLinked(s: Shape, s': Shape, unit: Unit, superunit: Unit)
    requires Linked(s) && unit in s.us && unit.nbr > 0 && Erased(s, s', unit, superunit)
    ensures Linked(s') && NamesOf(s'.us) == NamesOf(s.us) - {unit.nbr}
  {
    RemovedTable(s.us, unit);
    forall v: Unit | v in s'.us ensures SuperOk(s', v) && SubsOk(s', v) && IsSubOfSuper(s', v) {
      ErasedSuper(s, s', unit, superunit, v);
      ErasedSubs(s, s', unit, superunit, v);
    }
  }
}
