/** Lists of host names (Clash groups, sing-box selectors) that follow a shuffle:
    the members that moved are sorted by the slot they now hold, in the places
    such members had before; all others stay where they are. */
module Reorder {
  import opened Strings
  import Shuffle

  type Index = map<Bytes, nat>

  function Picked(names: seq<Bytes>, index: Index): (picked: seq<Bytes>)
    ensures forall n :: n in picked ==> n in index
    ensures |picked| <= |names|
  {
    if names == [] then []
    else if names[0] in index then [names[0]] + Picked(names[1..], index)
    else Picked(names[1..], index)
  }

  predicate SortedBy(names: seq<Bytes>, index: Index)
    requires forall n :: n in names ==> n in index
  {
    forall i, j :: 0 <= i < j < |names| ==> index[names[i]] <= index[names[j]]
  }

  /** sort.SliceStable by slot, as insertion: equal keys keep their order. */
  function Insert(name: Bytes, sorted: seq<Bytes>, index: Index): (r: seq<Bytes>)
    requires name in index && forall n :: n in sorted ==> n in index
    ensures multiset(r) == multiset(sorted) + multiset{name}
    ensures forall n :: n in r ==> n in index
  {
    if sorted == [] then [name]
    else
      assert sorted == [sorted[0]] + sorted[1..];
      if index[name] <= index[sorted[0]] then [name] + sorted
      else
        var rest := Insert(name, sorted[1..], index);
        [sorted[0]] + rest
  }

  function StableSort(names: seq<Bytes>, index: Index): (r: seq<Bytes>)
    requires forall n :: n in names ==> n in index
    ensures multiset(r) == multiset(names) && |r| == |names|
    ensures forall n :: n in r ==> n in index
  {
    if names == [] then []
    else
      assert names == [names[0]] + names[1..];
      var r := Insert(names[0], StableSort(names[1..], index), index);
      assert |multiset(r)| == |multiset(names)|;
      r
  }

  /** Puts `with`, in order, in the places of the members that have a slot. */
  function Fill(names: seq<Bytes>, index: Index, with: seq<Bytes>): (r: seq<Bytes>)
    requires |with| == |Picked(names, index)|
    ensures |r| == |names|
  {
    if names == [] then []
    else if names[0] in index then [with[0]] + Fill(names[1..], index, with[1..])
    else [names[0]] + Fill(names[1..], index, with)
  }

  function Reordered(names: seq<Bytes>, index: Index): (r: seq<Bytes>)
    ensures |r| == |names|
  {
    Fill(names, index, StableSort(Picked(names, index), index))
  }

  // ---------- what reordering promises ----------

  lemma SortedBehind(name: Bytes, rest: seq<Bytes>, index: Index)
    requires name in index && (forall n :: n in rest ==> n in index) && SortedBy(rest, index)
    requires forall n :: n in rest ==> index[name] <= index[n]
    ensures SortedBy([name] + rest, index)
  {
    var all := [name] + rest;
    assert forall i :: 0 < i < |all| ==> all[i] == rest[i - 1] && all[i] in rest;
  }

  lemma SortedHolds(sorted: seq<Bytes>, index: Index, name: Bytes)
    requires sorted != [] && (forall n :: n in sorted ==> n in index) && SortedBy(sorted, index) && name in sorted
    ensures index[sorted[0]] <= index[name]
  {
    var i :| 0 <= i < |sorted| && sorted[i] == name;
  }

  lemma InsertHolds(name: Bytes, sorted: seq<Bytes>, index: Index, n: Bytes)
    requires name in index && (forall n :: n in sorted ==> n in index) && n in Insert(name, sorted, index)
    ensures n == name || n in sorted
  {
    hide Insert;
    assert n in multiset(Insert(name, sorted, index));
    assert n == name || n in multiset(sorted);
  }

  lemma InsertStep(name: Bytes, sorted: seq<Bytes>, index: Index)
    requires name in index && (forall n :: n in sorted ==> n in index) && sorted != []
    ensures Insert(name, sorted, index) ==
      if index[name] <= index[sorted[0]] then [name] + sorted
      else [sorted[0]] + Insert(name, sorted[1..], index)
  {}

  lemma {:induction false} InsertSorts(name: Bytes, sorted: seq<Bytes>, index: Index)
    requires name in index && (forall n :: n in sorted ==> n in index) && SortedBy(sorted, index)
    ensures SortedBy(Insert(name, sorted, index), index)
  {
    hide Insert, SortedBy;
    if sorted == [] {
      InsertFront(name, sorted, index);
      SortedOne(name, index);
      assert [name] + [] == [name];
    } else {
      InsertStep(name, sorted, index);
      SortedTail(sorted, index);
      if index[name] <= index[sorted[0]] {
        forall n | n in sorted ensures index[name] <= index[n] {
          SortedHolds(sorted, index, n);
        }
        SortedBehind(name, sorted, index);
      } else {
        var rest := Insert(name, sorted[1..], index);
        InsertSorts(name, sorted[1..], index);
        forall n | n in rest ensures index[sorted[0]] <= index[n] {
          InsertHolds(name, sorted[1..], index, n);
          if n in sorted[1..] {
            SortedHolds(sorted, index, n);
          }
        }
        SortedBehind(sorted[0], rest, index);
      }
    }
  }

  lemma SortedOne(name: Bytes, index: Index)
    requires name in index
    ensures SortedBy([name], index)
  {}

  lemma {:induction false} StableSortSorts(names: seq<Bytes>, index: Index)
    requires forall n :: n in names ==> n in index
    ensures SortedBy(StableSort(names, index), index)
  {
    if names != [] {
      StableSortSorts(names[1..], index);
      InsertSorts(names[0], StableSort(names[1..], index), index);
    }
  }

  lemma {:induction false} StableSortKeepsSorted(names: seq<Bytes>, index: Index)
    requires (forall n :: n in names ==> n in index) && SortedBy(names, index)
    ensures StableSort(names, index) == names
  {
    hide Insert;
    if names != [] {
      SortedTail(names, index);
      StableSortKeepsSorted(names[1..], index);
      assert names == [names[0]] + names[1..];
      InsertFront(names[0], names[1..], index);
    }
  }

  lemma InsertFront(name: Bytes, sorted: seq<Bytes>, index: Index)
    requires name in index && forall n :: n in sorted ==> n in index
    requires sorted != [] ==> index[name] <= index[sorted[0]]
    ensures Insert(name, sorted, index) == [name] + sorted
  {
    if sorted == [] {
      assert [name] + sorted == [name];
    }
  }

  lemma SortedTail(names: seq<Bytes>, index: Index)
    requires names != [] && (forall n :: n in names ==> n in index) && SortedBy(names, index)
    ensures SortedBy(names[1..], index)
    ensures names[1..] != [] ==> index[names[0]] <= index[names[1..][0]]
  {}

  lemma {:induction false} PickedOfFill(names: seq<Bytes>, index: Index, with: seq<Bytes>)
    requires |with| == |Picked(names, index)| && forall n :: n in with ==> n in index
    ensures Picked(Fill(names, index, with), index) == with
    ensures forall i :: 0 <= i < |names| ==>
      if names[i] in index then Fill(names, index, with)[i] in index else Fill(names, index, with)[i] == names[i]
  {
    if names != [] {
      if names[0] in index {
        PickedOfFill(names[1..], index, with[1..]);
        assert with == [with[0]] + with[1..];
      } else {
        PickedOfFill(names[1..], index, with);
      }
    }
  }

  lemma BagSwap<T>(a: multiset<T>, b: multiset<T>, c: multiset<T>, d: multiset<T>, x: multiset<T>, y: multiset<T>)
    requires a + b == c + d
    ensures (x + a) + (y + b) == (y + c) + (x + d)
    ensures (x + a) + b == (x + c) + d
  {
    assert (x + a) + (y + b) == (x + y) + (a + b);
    assert (y + c) + (x + d) == (x + y) + (c + d);
    assert (x + a) + b == x + (a + b);
    assert (x + c) + d == x + (c + d);
  }

  lemma FillStep(names: seq<Bytes>, index: Index, with: seq<Bytes>)
    requires names != [] && |with| == |Picked(names, index)|
    ensures names[0] in index ==>
      && with != [] && Picked(names, index) == [names[0]] + Picked(names[1..], index)
      && Fill(names, index, with) == [with[0]] + Fill(names[1..], index, with[1..])
    ensures names[0] !in index ==>
      && Picked(names, index) == Picked(names[1..], index)
      && Fill(names, index, with) == [names[0]] + Fill(names[1..], index, with)
  {}

  lemma FillNone(index: Index, with: seq<Bytes>)
    requires |with| == |Picked([], index)|
    ensures Fill([], index, with) == [] == Picked([], index) && with == []
  {}

  lemma {:induction false} FillBag(names: seq<Bytes>, index: Index, with: seq<Bytes>)
    requires |with| == |Picked(names, index)|
    ensures multiset(Fill(names, index, with)) + multiset(Picked(names, index)) == multiset(names) + multiset(with)
  {
    hide *;
    if names == [] {
      FillNone(index, with);
    } else {
      FillStep(names, index, with);
      var rest := if names[0] in index then with[1..] else with;
      FillBag(names[1..], index, rest);
      assert names == [names[0]] + names[1..];
      var a, b := multiset(Fill(names[1..], index, rest)), multiset(Picked(names[1..], index));
      var c, d := multiset(names[1..]), multiset(rest);
      if names[0] in index {
        assert with == [with[0]] + rest;
        BagSwap(a, b, c, d, multiset{with[0]}, multiset{names[0]});
      } else {
        BagSwap(a, b, c, d, multiset{names[0]}, multiset{});
      }
    }
  }

  lemma {:induction false} FillOfPicked(names: seq<Bytes>, index: Index)
    ensures Fill(names, index, Picked(names, index)) == names
  {
    if names != [] {
      FillOfPicked(names[1..], index);
      assert names == [names[0]] + names[1..];
    }
  }

  /** A reordered list has the same members, keeps those without a slot in place,
      and lists the others by slot. */
  lemma ReorderedFollows(names: seq<Bytes>, index: Index)
    ensures var r := Reordered(names, index);
      && multiset(r) == multiset(names)
      && (forall i :: 0 <= i < |names| && names[i] !in index ==> r[i] == names[i])
      && (forall i :: 0 <= i < |names| && names[i] in index ==> r[i] in index)
      && SortedBy(Picked(r, index), index)
  {
    hide Picked, Fill, StableSort;
    var picked := Picked(names, index);
    var sorted := StableSort(picked, index);
    StableSortSorts(picked, index);
    PickedOfFill(names, index, sorted);
    FillBag(names, index, sorted);
    Shuffle.Cancel(multiset(Reordered(names, index)), multiset(names), multiset(picked));
  }

  lemma {:induction false} PickedAt(names: seq<Bytes>, index: Index, i: nat, j: nat)
    requires i < j < |names| && names[i] in index && names[j] in index
    ensures exists a, b ::
              0 <= a < b < |Picked(names, index)| && Picked(names, index)[a] == names[i] && Picked(names, index)[b] == names[j]
  {
    var tail := Picked(names[1..], index);
    if i > 0 {
      PickedAt(names[1..], index, i - 1, j - 1);
      var a, b :| 0 <= a < b < |tail| && tail[a] == names[i] && tail[b] == names[j];
      var shift := if names[0] in index then 1 else 0;
      assert Picked(names, index)[a + shift] == names[i] && Picked(names, index)[b + shift] == names[j];
    } else {
      PickedHolds(names[1..], index, j - 1);
      var b :| 0 <= b < |tail| && tail[b] == names[j];
      assert Picked(names, index)[0] == names[i] && Picked(names, index)[b + 1] == names[j];
    }
  }

  lemma {:induction false} PickedHolds(names: seq<Bytes>, index: Index, i: nat)
    requires i < |names| && names[i] in index
    ensures exists a :: 0 <= a < |Picked(names, index)| && Picked(names, index)[a] == names[i]
  {
    var tail := Picked(names[1..], index);
    if i > 0 {
      PickedHolds(names[1..], index, i - 1);
      var a :| 0 <= a < |tail| && tail[a] == names[i];
      assert Picked(names, index)[if names[0] in index then a + 1 else a] == names[i];
    } else {
      assert Picked(names, index)[0] == names[0];
    }
  }

  /** Read off positions: of two members with slots, the one listed first has the lower slot. */
  lemma ReorderedBySlot(names: seq<Bytes>, index: Index, i: nat, j: nat)
    requires i < j < |names| && names[i] in index && names[j] in index
    ensures var r := Reordered(names, index);
      r[i] in index && r[j] in index && index[r[i]] <= index[r[j]]
  {
    ReorderedFollows(names, index);
    PickedAt(Reordered(names, index), index, i, j);
  }

  /** Reordering again changes nothing. */
  lemma ReorderedTwice(names: seq<Bytes>, index: Index)
    ensures Reordered(Reordered(names, index), index) == Reordered(names, index)
  {
    var picked := Picked(names, index);
    var sorted := StableSort(picked, index);
    StableSortSorts(picked, index);
    PickedOfFill(names, index, sorted);
    StableSortKeepsSorted(sorted, index);
    FillOfPicked(Reordered(names, index), index);
  }

  // ---------- in place ----------

  lemma {:induction false} PickedSnoc(names: seq<Bytes>, last: Bytes, index: Index)
    ensures Picked(names + [last], index) == Picked(names, index) + if last in index then [last] else []
  {
    if names == [] {
      assert [] + [last] == [last];
    } else {
      PickedSnoc(names[1..], last, index);
      assert (names + [last])[1..] == names[1..] + [last];
    }
  }

  lemma {:induction false} FillAt(names: seq<Bytes>, index: Index, with: seq<Bytes>, i: nat)
    requires |with| == |Picked(names, index)| && i < |names|
    ensures |Picked(names[..i], index)| <= |with|
    ensures names[i] in index ==> |Picked(names[..i], index)| < |with|
    ensures Fill(names, index, with)[i] == if names[i] in index then with[|Picked(names[..i], index)|] else names[i]
  {
    if i > 0 {
      assert names[..i][1..] == names[1..][..i - 1];
      FillAt(names[1..], index, if names[0] in index then with[1..] else with, i - 1);
    }
  }

  method SortByIndex(picked: seq<Bytes>, index: Index) returns (sorted: seq<Bytes>)
    requires forall n :: n in picked ==> n in index
    ensures sorted == StableSort(picked, index)
  {
    sorted := [];
    var i := |picked|;
    while i > 0
      invariant 0 <= i <= |picked| && sorted == StableSort(picked[i..], index)
    {
      i := i - 1;
      assert picked[i..][0] == picked[i] && picked[i..][1..] == picked[i + 1..];
      assert picked[i] in picked;
      sorted := Insert(picked[i], sorted, index);
    }
    assert picked[0..] == picked;
  }

  /** Where a member's replacement stands among the sorted ones. */
  function Place(names: seq<Bytes>, index: Index, i: nat): nat
    requires i <= |names|
  {
    |Picked(names[..i], index)|
  }

  lemma PlaceStep(names: seq<Bytes>, index: Index, i: nat)
    requires i < |names|
    ensures Picked(names[..i + 1], index) == Picked(names[..i], index) + if names[i] in index then [names[i]] else []
    ensures Place(names, index, i + 1) == Place(names, index, i) + if names[i] in index then 1 else 0
  {
    PickedSnoc(names[..i], names[i], index);
    assert names[..i + 1] == names[..i] + [names[i]];
  }

  /** slots lists the positions of the first n members that have a slot. */
  ghost predicate SlotsOf(slots: seq<nat>, names: seq<Bytes>, index: Index, n: nat)
    requires n <= |names|
  {
    && |slots| == Place(names, index, n)
    && (forall k :: 0 <= k < |slots| ==> slots[k] < n && names[slots[k]] in index && Place(names, index, slots[k]) == k)
    && (forall j :: 0 <= j < n && names[j] in index ==> Place(names, index, j) < |slots| && slots[Place(names, index, j)] == j)
  }

  lemma SlotsGrow(slots: seq<nat>, names: seq<Bytes>, index: Index, n: nat)
    requires n < |names| && SlotsOf(slots, names, index, n)
    ensures SlotsOf(if names[n] in index then slots + [n] else slots, names, index, n + 1)
  {
    hide Place;
    PlaceStep(names, index, n);
  }

  /** reorderNames: true exactly when the list changed. */
  method ReorderNames(names: array<Bytes>, index: Index) returns (changed: bool)
    modifies names
    ensures names[..] == Reordered(old(names[..]), index)
    ensures changed <==> names[..] != old(names[..])
  {
    hide Picked, Fill, StableSort, SlotsOf, Reordered;
    ghost var was := names[..];
    var slots: seq<nat> := [];
    var picked: seq<Bytes> := [];
    NoSlots(was, index);
    for i := 0 to names.Length
      invariant names[..] == was
      invariant picked == Picked(was[..i], index)
      invariant SlotsOf(slots, was, index, i)
    {
      PlaceStep(was, index, i);
      SlotsGrow(slots, was, index, i);
      assert picked + [] == picked;
      if names[i] in index {
        slots := slots + [i];
        picked := picked + [names[i]];
      }
    }
    assert was[..names.Length] == was;
    SlotsCount(slots, was, index);
    if |slots| < 2 {
      FewAreSorted(was, index);
      return false;
    }
    var sorted := SortByIndex(picked, index);
    changed := WriteBack(names, slots, sorted, was, index);
    assert names[..] == Reordered(was, index) by {
      forall j | 0 <= j < |was| ensures names[j] == Reordered(was, index)[j] {
        ReorderedAt(was, index, j);
      }
    }
  }

  lemma NoSlots(names: seq<Bytes>, index: Index)
    ensures names[..0] == [] && Picked([], index) == [] && SlotsOf([], names, index, 0)
  {}

  lemma SlotsCount(slots: seq<nat>, names: seq<Bytes>, index: Index)
    requires SlotsOf(slots, names, index, |names|)
    ensures |slots| == |Picked(names, index)|
  {
    assert names[..|names|] == names;
  }

  lemma ReorderedAt(names: seq<Bytes>, index: Index, i: nat)
    requires i < |names|
    ensures var sorted := StableSort(Picked(names, index), index);
      && (names[i] in index ==> Place(names, index, i) < |sorted|)
      && Reordered(names, index)[i] == if names[i] in index then sorted[Place(names, index, i)] else names[i]
  {
    FillAt(names, index, StableSort(Picked(names, index), index), i);
  }

  /** Writes the sorted members back into their slots. */
  method WriteBack(names: array<Bytes>, slots: seq<nat>, sorted: seq<Bytes>, ghost was: seq<Bytes>, index: Index)
    returns (changed: bool)
    requires names[..] == was && SlotsOf(slots, was, index, |was|) && |sorted| == |slots|
    modifies names
    ensures forall j :: 0 <= j < |was| ==>
      && (was[j] in index ==> Place(was, index, j) < |sorted|)
      && names[j] == if was[j] in index then sorted[Place(was, index, j)] else was[j]
    ensures changed <==> names[..] != was
  {
    hide Place;
    changed := false;
    for k := 0 to |slots|
      invariant forall j :: 0 <= j < |was| ==>
        names[j] == if was[j] in index && Place(was, index, j) < k then sorted[Place(was, index, j)] else was[j]
      invariant changed <==> exists j :: 0 <= j < k && sorted[j] != was[slots[j]]
    {
      var slot := slots[k];
      if names[slot] != sorted[k] {
        changed := true;
      }
      names[slot] := sorted[k];
    }
    if changed {
      ghost var k :| 0 <= k < |slots| && sorted[k] != was[slots[k]];
      assert names[..][slots[k]] != was[slots[k]];
    } else {
      assert names[..] == was;
    }
  }

  lemma FewAreSorted(names: seq<Bytes>, index: Index)
    requires |Picked(names, index)| < 2
    ensures Reordered(names, index) == names
  {
    StableSortKeepsSorted(Picked(names, index), index);
    FillOfPicked(names, index);
  }
}
