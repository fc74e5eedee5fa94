/** The initiative table of an encounter: ordering its entity rows, moving the selection to
    the next conscious row, the ability-suffix switch, and finding the encounter of an element. */
module Encounters {
  import opened Outcomes
  import Entities

  /** One entity row as the encounter sees it: its rolled initiative (the `initiativeCheck`
      dataset entry, read by `parseInt`), its initiative modifier, and its two classes. */
  datatype Row = Row(check: Option<int>, initiativeMod: int, unconscious: bool, selected: bool)

  // ---------------------------------------------------------------------------------------
  // The comparator of sort()

  /** Negative: `lhs` goes first; positive: `rhs` goes first. */
  function Compare(lhs: Row, rhs: Row): (c: int)
    ensures c <= 0 <==> RanksBefore(lhs, rhs)
    ensures c < 0 <==> !RanksBefore(rhs, lhs)
  {
    if lhs.check.Some? && rhs.check.Some? then rhs.check.value - lhs.check.value
    else if lhs.check.Some? then -1
    else if rhs.check.Some? then 1
    else rhs.initiativeMod - lhs.initiativeMod
  }

  /** Reference order: rolled rows before unrolled ones, then by descending roll, or by
      descending modifier when neither has rolled. */
  function Tier(r: Row): int {
    if r.check.Some? then 0 else 1
  }

  function Score(r: Row): int {
    if r.check.Some? then r.check.value else r.initiativeMod
  }

  predicate RanksBefore(a: Row, b: Row) {
    Tier(a) < Tier(b) || (Tier(a) == Tier(b) && Score(a) >= Score(b))
  }

  lemma CompareRanks(a: Row, b: Row)
    ensures Compare(a, b) <= 0 <==> RanksBefore(a, b)
    ensures Compare(a, b) < 0 <==> !RanksBefore(b, a)
    ensures a.check.Some? && b.check.Some? ==> Compare(a, b) == b.check.value - a.check.value
    ensures a.check.Some? && b.check.None? ==> Compare(a, b) < 0 && Compare(b, a) > 0
    ensures a.check.None? && b.check.None? ==> Compare(a, b) == b.initiativeMod - a.initiativeMod
  {
  }

  lemma CompareAntisymmetric(a: Row, b: Row)
    ensures Compare(a, b) == -Compare(b, a)
  {
  }

  lemma CompareTransitive(a: Row, b: Row, c: Row)
    requires Compare(a, b) <= 0 && Compare(b, c) <= 0
    ensures Compare(a, c) <= 0
  {
    CompareRanks(a, b);
    CompareRanks(b, c);
    CompareRanks(a, c);
  }

  // ---------------------------------------------------------------------------------------
  // rows.sort(comparator): a stable sort

  predicate Sorted(s: seq<Row>) {
    forall i, j :: 0 <= i < j < |s| ==> Compare(s[i], s[j]) <= 0
  }

  /** Puts `x` in front of the first row it does not have to follow. */
  function Insert(x: Row, s: seq<Row>): (r: seq<Row>)
    requires Sorted(s)
    ensures Sorted(r)
    ensures multiset(r) == multiset(s) + multiset{x}
  {
    PlaceSorted(x, s);
    PlaceMultiset(x, s);
    Place(x, s)
  }

  /** The insertion step alone, without the sortedness it relies on. */
  function Place(x: Row, s: seq<Row>): seq<Row> {
    if |s| == 0 then [x]
    else if Compare(x, s[0]) <= 0 then [x] + s
    else [s[0]] + Place(x, s[1..])
  }

  lemma {:induction false} PlaceMultiset(x: Row, s: seq<Row>)
    ensures multiset(Place(x, s)) == multiset(s) + multiset{x}
  {
    if |s| > 0 && Compare(x, s[0]) > 0 {
      PlaceMultiset(x, s[1..]);
      assert s == [s[0]] + s[1..];
    }
  }

  lemma {:induction false} PlaceSorted(x: Row, s: seq<Row>)
    requires Sorted(s)
    ensures Sorted(Place(x, s))
  {
    if |s| > 0 {
      if Compare(x, s[0]) <= 0 {
        SortedFront(x, s);
      } else {
        SortedTail(s);
        PlaceSorted(x, s[1..]);
        PlaceMultiset(x, s[1..]);
        SortedBehind(x, s, Place(x, s[1..]));
      }
    }
  }

  /** `x` may go in front of sorted rows it does not have to follow. */
  lemma SortedFront(x: Row, s: seq<Row>)
    requires Sorted(s) && |s| > 0 && Compare(x, s[0]) <= 0
    ensures Sorted([x] + s)
  {
    forall k | 0 <= k < |s| ensures Compare(x, s[k]) <= 0 {
      if k > 0 { CompareTransitive(x, s[0], s[k]); }
    }
    var r := [x] + s;
    assert forall i :: 1 <= i < |r| ==> r[i] == s[i - 1];
  }

  /** The first row may stay in front of the rest with `x` inserted, when `x` follows it. */
  lemma SortedBehind(x: Row, s: seq<Row>, tail: seq<Row>)
    requires Sorted(s) && |s| > 0 && Compare(x, s[0]) > 0
    requires Sorted(tail) && multiset(tail) == multiset(s[1..]) + multiset{x}
    ensures Sorted([s[0]] + tail)
  {
    CompareAntisymmetric(x, s[0]);
    forall j | 0 <= j < |tail| ensures Compare(s[0], tail[j]) <= 0 {
      assert tail[j] in multiset(tail);
      if tail[j] != x {
        assert tail[j] in multiset(s[1..]);
        var k :| 0 <= k < |s[1..]| && s[1..][k] == tail[j];
        assert s[k + 1] == tail[j];
      }
    }
    var r := [s[0]] + tail;
    assert forall i :: 1 <= i < |r| ==> r[i] == tail[i - 1];
  }

  function Sort(s: seq<Row>): (r: seq<Row>)
    ensures Sorted(r)
    ensures multiset(r) == multiset(s)
  {
    if |s| == 0 then []
    else
      assert s == [s[0]] + s[1..];
      Insert(s[0], Sort(s[1..]))
  }

  /** In sorted rows, every rolled row comes before every unrolled one, rolled rows descend by
      their roll, and unrolled rows by their modifier. */
  lemma SortedOrder(s: seq<Row>, i: int, j: int)
    requires Sorted(s) && 0 <= i < j < |s|
    ensures s[j].check.Some? ==> s[i].check.Some?
    ensures s[i].check.Some? && s[j].check.Some? ==> s[i].check.value >= s[j].check.value
    ensures s[i].check.None? && s[j].check.None? ==> s[i].initiativeMod >= s[j].initiativeMod
  {
    assert Compare(s[i], s[j]) <= 0;
  }

  // ---------------------------------------------------------------------------------------
  // sort(): reorder, clear the selection, select the first row

  function Unselect(r: Row): Row {
    r.(selected := false)
  }

  function ClearAll(s: seq<Row>): (r: seq<Row>)
    ensures |r| == |s|
    ensures forall i :: 0 <= i < |s| ==> r[i] == Unselect(s[i])
  {
    if |s| == 0 then [] else [Unselect(s[0])] + ClearAll(s[1..])
  }

  lemma ClearCons(a: Row, s: seq<Row>)
    ensures ClearAll([a] + s) == [Unselect(a)] + ClearAll(s)
  {
    assert ([a] + s)[1..] == s;
  }

  lemma ClearTail(s: seq<Row>)
    requires |s| > 0
    ensures ClearAll(s)[1..] == ClearAll(s[1..])
  {
  }

  lemma SortedClear(s: seq<Row>)
    requires Sorted(s)
    ensures Sorted(ClearAll(s))
  {
    var c := ClearAll(s);
    forall i, j | 0 <= i < j < |c| ensures Compare(c[i], c[j]) <= 0 {
      assert Compare(c[i], c[j]) == Compare(s[i], s[j]);
    }
  }

  lemma {:induction false} PlaceClear(x: Row, s: seq<Row>)
    ensures ClearAll(Place(x, s)) == Place(Unselect(x), ClearAll(s))
  {
    if |s| == 0 {
      ClearCons(x, []);
    } else {
      var cs := ClearAll(s);
      assert cs[0] == Unselect(s[0]);
      assert Compare(Unselect(x), cs[0]) == Compare(x, s[0]);
      if Compare(x, s[0]) > 0 {
        PlaceClear(x, s[1..]);
        ClearCons(s[0], Place(x, s[1..]));
        ClearTail(s);
      } else {
        ClearCons(x, s);
      }
    }
  }

  /** The comparator ignores the selection, so clearing it before or after sorting is the same. */
  lemma InsertClear(x: Row, s: seq<Row>)
    requires Sorted(s)
    ensures Sorted(ClearAll(s)) && ClearAll(Insert(x, s)) == Insert(Unselect(x), ClearAll(s))
  {
    SortedClear(s);
    PlaceClear(x, s);
  }

  lemma SortedTail(s: seq<Row>)
    requires Sorted(s) && |s| > 0
    ensures Sorted(s[1..])
  {
    var t := s[1..];
    forall i, j | 0 <= i < j < |t| ensures Compare(t[i], t[j]) <= 0 {
      assert t[i] == s[i + 1] && t[j] == s[j + 1];
    }
  }

  lemma {:induction false} SortClear(s: seq<Row>)
    ensures ClearAll(Sort(s)) == Sort(ClearAll(s))
  {
    if |s| > 0 {
      SortClear(s[1..]);
      ClearTail(s);
      assert ClearAll(s)[0] == Unselect(s[0]);
      InsertClear(s[0], Sort(s[1..]));
    }
  }

  /** The sorted rows, all cleared, then the first selected. */
  function Reselect(sorted: seq<Row>): (r: seq<Row>)
    requires |sorted| > 0
    ensures |r| == |sorted| && r[0].selected
    ensures forall i :: 0 < i < |r| ==> !r[i].selected
    ensures ClearAll(r) == ClearAll(sorted)
    ensures Sorted(sorted) ==> Sorted(r)
  {
    var cleared := ClearAll(sorted);
    var r := cleared[0 := cleared[0].(selected := true)];
    assert Sorted(sorted) ==> Sorted(r) by {
      if Sorted(sorted) {
        forall i, j | 0 <= i < j < |r| ensures Compare(r[i], r[j]) <= 0 {
          assert Compare(r[i], r[j]) == Compare(sorted[i], sorted[j]);
        }
      }
    }
    r
  }

  /** sort(): `rows[0]` of an empty table is undefined, and reading its class list throws. */
  function SortEncounter(rows: seq<Row>): (r: Outcome<seq<Row>>)
    ensures r.Failure? <==> |rows| == 0
    ensures r.Failure? ==> r.error == TypeError
    ensures r.Success? ==>
      && |r.value| == |rows|
      && Sorted(r.value)
      && r.value[0].selected
      && (forall i :: 0 < i < |r.value| ==> !r.value[i].selected)
      && multiset(ClearAll(r.value)) == multiset(ClearAll(rows))
  {
    if |rows| == 0 then Failure(TypeError)
    else
      var sorted := Sort(rows);
      assert |sorted| == |rows| by { assert |multiset(sorted)| == |multiset(rows)|; }
      assert multiset(ClearAll(sorted)) == multiset(ClearAll(rows)) by {
        SortClear(rows);
      }
      Success(Reselect(sorted))
  }

  /** After sort(), every rolled row is ahead of every unrolled row, and exactly the first row
      is selected. */
  lemma SortEncounterOrder(rows: seq<Row>, i: int, j: int)
    requires SortEncounter(rows).Success?
    requires 0 <= i < j < |SortEncounter(rows).value|
    ensures var s := SortEncounter(rows).value;
      (s[j].check.Some? ==> s[i].check.Some?) && s[0].selected && !s[j].selected
  {
    SortedOrder(SortEncounter(rows).value, i, j);
  }

  // ---------------------------------------------------------------------------------------
  // selectNext()

  /** `querySelector(".entity.selected")`: the first selected row. */
  function FirstSelected(rows: seq<Row>): (r: Option<nat>)
    ensures r.Some? ==> r.value < |rows| && rows[r.value].selected
    ensures r.Some? ==> forall j :: 0 <= j < r.value ==> !rows[j].selected
    ensures r.None? ==> forall j :: 0 <= j < |rows| ==> !rows[j].selected
  {
    if |rows| == 0 then None
    else if rows[0].selected then Some(0)
    else match FirstSelected(rows[1..])
      case None => None
      case Some(k) => Some(k + 1)
  }

  /** The first row at or after `from` that is not unconscious. */
  function FirstConscious(rows: seq<Row>, from: nat): (r: Option<nat>)
    ensures r.Some? ==> from <= r.value < |rows| && !rows[r.value].unconscious
    ensures r.Some? ==> forall j :: from <= j < r.value ==> rows[j].unconscious
    ensures r.None? ==> forall j :: from <= j < |rows| ==> rows[j].unconscious
    decreases |rows| - from
  {
    if from >= |rows| then None
    else if !rows[from].unconscious then Some(from)
    else FirstConscious(rows, from + 1)
  }

  /** The row selectNext selects: the first conscious row after a selected one
      (`.entity.selected ~ .entity:not(.unconscious)`), else the first conscious row. */
  function NextIndex(rows: seq<Row>): (r: Option<nat>)
    ensures r.Some? ==> r.value < |rows| && !rows[r.value].unconscious
    ensures r.None? <==> forall j :: 0 <= j < |rows| ==> rows[j].unconscious
    ensures FirstSelected(rows).None? && r.Some? ==> forall j :: 0 <= j < r.value ==> rows[j].unconscious
  {
    match FirstSelected(rows)
    case None => FirstConscious(rows, 0)
    case Some(c) =>
      match FirstConscious(rows, c + 1)
      case Some(n) => Some(n)
      case None => FirstConscious(rows, 0)
  }

  function SetSelected(rows: seq<Row>, i: Option<nat>, on: bool): (r: seq<Row>)
    ensures |r| == |rows|
  {
    if i.Some? && i.value < |rows| then rows[i.value := rows[i.value].(selected := on)] else rows
  }

  /** selectNext(): clear the current row, then select the next one. */
  function SelectNext(rows: seq<Row>): (r: seq<Row>)
    ensures |r| == |rows|
    ensures forall i :: 0 <= i < |rows| ==> Unselect(r[i]) == Unselect(rows[i])
    ensures NextIndex(rows).Some? ==> r[NextIndex(rows).value].selected
    ensures forall i :: 0 <= i < |rows| && Some(i) != NextIndex(rows) && Some(i) != FirstSelected(rows) ==>
      r[i].selected == rows[i].selected
    ensures FirstSelected(rows).Some? && FirstSelected(rows) != NextIndex(rows) ==> !r[FirstSelected(rows).value].selected
  {
    SetSelected(SetSelected(rows, FirstSelected(rows), false), NextIndex(rows), true)
  }

  /** The cyclic successor: a conscious row, reached from the current row by passing only
      unconscious rows, wrapping round once at the end of the table. Without a current row it
      is the first conscious row of the table. */
  lemma NextIsCyclicSuccessor(rows: seq<Row>)
    ensures match NextIndex(rows)
      case None => forall j :: 0 <= j < |rows| ==> rows[j].unconscious
      case Some(n) =>
        && !rows[n].unconscious
        && match FirstSelected(rows)
           case None => forall j :: 0 <= j < n ==> rows[j].unconscious
           case Some(c) =>
             && (n > c ==> forall j :: c < j < n ==> rows[j].unconscious)
             && (n <= c ==> (forall j :: c < j < |rows| ==> rows[j].unconscious) && (forall j :: 0 <= j < n ==> rows[j].unconscious))
  {
  }

  /** With one row selected and some row conscious, selectNext leaves exactly one row selected:
      the successor. With every row unconscious it leaves none. */
  lemma SelectNextKeepsOne(rows: seq<Row>, c: nat)
    requires c < |rows| && rows[c].selected
    requires forall i :: 0 <= i < |rows| && i != c ==> !rows[i].selected
    ensures var r := SelectNext(rows);
      match NextIndex(rows)
      case Some(n) => forall i :: 0 <= i < |r| ==> (r[i].selected <==> i == n)
      case None => forall i :: 0 <= i < |r| ==> !r[i].selected
  {
    assert FirstSelected(rows) == Some(c);
  }

  // ---------------------------------------------------------------------------------------
  // setAbilitySuffix

  /** A `dnd-entity-ability` element: its `data-ability` and `data-ability-suffix`, either of
      which may be absent. */
  datatype AbilityElement = AbilityElement(ability: Option<string>, suffix: Option<string>)

  predicate ValidSuffix(suffix: string) {
    suffix in ["", "Mod", "Save"]
  }

  predicate NamesAbility(e: AbilityElement) {
    e.ability.Some? && e.ability.value in Entities.AbilityNames
  }

  /** setAbilitySuffix(suffix): every element naming an ability gets the suffix, the others are
      left alone; any other suffix throws. */
  method SetAbilitySuffix(elements: seq<AbilityElement>, suffix: string) returns (r: Outcome<seq<AbilityElement>>)
    ensures r.Failure? <==> !ValidSuffix(suffix)
    ensures r.Failure? ==> r.error == UnrecognizedSuffix(suffix)
    ensures r.Success? ==> |r.value| == |elements|
    ensures r.Success? ==> forall i :: 0 <= i < |elements| ==>
      r.value[i] == if NamesAbility(elements[i]) then elements[i].(suffix := Some(suffix)) else elements[i]
  {
    if !ValidSuffix(suffix) {
      return Failure(UnrecognizedSuffix(suffix));
    }
    var out := elements;
    var i := 0;
    while i < |elements|
      invariant 0 <= i <= |elements| && |out| == |elements|
      invariant forall j :: 0 <= j < i ==>
        out[j] == if NamesAbility(elements[j]) then elements[j].(suffix := Some(suffix)) else elements[j]
      invariant forall j :: i <= j < |elements| ==> out[j] == elements[j]
    {
      if NamesAbility(elements[i]) {
        out := out[i := elements[i].(suffix := Some(suffix))];
      }
      i := i + 1;
    }
    return Success(out);
  }

  // ---------------------------------------------------------------------------------------
  // getEncounter

  /** An element, as far as its chain of parents goes. */
  datatype Element = Element(isEncounter: bool, parent: Option<Element>)

  /** `getEncounter(element)`: walk up the parents until one is an encounter. */
  function GetEncounter(e: Element): (r: Option<Element>)
    ensures r.Some? ==> r.value.isEncounter && r.value in Ancestors(e)
  {
    match e.parent
    case None => None
    case Some(p) => if p.isEncounter then Some(p) else GetEncounter(p)
  }

  /** The parents of `e`, nearest first. */
  function Ancestors(e: Element): (a: seq<Element>)
    ensures e.parent.Some? ==> |a| > 0 && a[0] == e.parent.value
  {
    match e.parent
    case None => []
    case Some(p) => [p] + Ancestors(p)
  }

  /** getEncounter returns the nearest ancestor that is an encounter, and null when none is. */
  lemma {:induction false} GetEncounterNearest(e: Element)
    ensures match GetEncounter(e)
      case None => forall i :: 0 <= i < |Ancestors(e)| ==> !Ancestors(e)[i].isEncounter
      case Some(x) =>
        exists i :: (0 <= i < |Ancestors(e)| && Ancestors(e)[i] == x && x.isEncounter
          && forall j :: 0 <= j < i ==> !Ancestors(e)[j].isEncounter)
  {
    match e.parent
    case None =>
    case Some(p) =>
      var a := Ancestors(e);
      assert a == [p] + Ancestors(p);
      if !p.isEncounter {
        GetEncounterNearest(p);
        match GetEncounter(p)
        case None =>
          forall i | 0 <= i < |a| ensures !a[i].isEncounter {
            if i > 0 { assert a[i] == Ancestors(p)[i - 1]; }
          }
        case Some(x) =>
          var i :| 0 <= i < |Ancestors(p)| && Ancestors(p)[i] == x && x.isEncounter
            && forall j :: 0 <= j < i ==> !Ancestors(p)[j].isEncounter;
          assert a[i + 1] == x;
          forall j | 0 <= j < i + 1 ensures !a[j].isEncounter {
            if j > 0 { assert a[j] == Ancestors(p)[j - 1]; }
          }
      } else {
        assert a[0] == p;
      }
  }
}
