/** Which slot each grouped host name holds after a shuffle. */
module Followers {
  import opened Strings
  import opened Shuffle
  import opened Reorder

  /** The index over the first n slots: a repeated name ends at its last slot. */
  function SlotIndex(groups: Groups, names: seq<Bytes>, perm: seq<nat>, n: nat): Index
    requires n <= |perm| && Within(perm, |names|)
  {
    if n == 0 then map[]
    else
      var name := names[perm[n - 1]];
      var front := SlotIndex(groups, names, perm, n - 1);
      if Group(groups, name) >= 0 then front[name := n - 1] else front
  }

  /** A name has a slot exactly when it belongs to a group and some host bears
      it, and then its slot is the last that now holds such a host. */
  lemma {:induction false} SlotIndexIs(groups: Groups, names: seq<Bytes>, perm: seq<nat>, n: nat, name: Bytes)
    requires n <= |perm| && Within(perm, |names|)
    ensures var index := SlotIndex(groups, names, perm, n);
      && (name in index <==> Group(groups, name) >= 0 && exists slot :: 0 <= slot < n && names[perm[slot]] == name)
      && (name in index ==>
            && index[name] < n && names[perm[index[name]]] == name
            && forall slot :: index[name] < slot < n ==> names[perm[slot]] != name)
  {
    hide Group;
    if n > 0 {
      SlotIndexIs(groups, names, perm, n - 1, name);
      assert names[perm[n - 1]] == name ==> exists slot :: 0 <= slot < n && names[perm[slot]] == name;
    }
  }

  /** The entries in their new slots, and for each host the slot it now holds. */
  method MoveSlots<T>(groups: Groups, names: seq<Bytes>, perm: seq<nat>, items: seq<T>)
    returns (shuffled: seq<T>, newIndex: Index)
    requires |names| == |items| == |perm| && Within(perm, |items|)
    ensures shuffled == Arranged(items, perm)
    ensures newIndex == SlotIndex(groups, names, perm, |perm|)
  {
    hide Group;
    shuffled, newIndex := [], map[];
    for slot := 0 to |perm|
      invariant |shuffled| == slot && forall j :: 0 <= j < slot ==> shuffled[j] == items[perm[j]]
      invariant newIndex == SlotIndex(groups, names, perm, slot)
    {
      var from := perm[slot];
      shuffled := shuffled + [items[from]];
      if Group(groups, names[from]) >= 0 {
        newIndex := newIndex[names[from] := slot];
      }
    }
  }
}
