/** The group-wise shuffle of host slots, and the by-name lists that follow it.
    A group is a regexp over host names, here any predicate; the random source is
    any sequence of swaps. */
module Shuffle {
  import opened Strings

  type Groups = seq<Bytes -> bool>

  /** The swaps the random source makes when asked to shuffle the n members of group g. */
  type Randomness = (nat, nat) -> seq<(nat, nat)>

  function FirstMatch(groups: Groups, name: Bytes, i: nat): (g: int)
    requires i <= |groups|
    ensures g == -1 || (i <= g < |groups| && groups[g](name))
    ensures forall j :: i <= j < |groups| && groups[j](name) ==> 0 <= g <= j
    decreases |groups| - i
  {
    if i == |groups| then -1
    else if groups[i](name) then i
    else FirstMatch(groups, name, i + 1)
  }

  /** The first group that matches a host's name, -1 for none and for a blank name. */
  function Group(groups: Groups, name: Bytes): (g: int)
    ensures -1 <= g < |groups|
    ensures g >= 0 ==> name != [] && groups[g](name)
    ensures name != [] ==> forall j :: 0 <= j < |groups| && groups[j](name) ==> 0 <= g <= j
  {
    if name == [] then -1 else FirstMatch(groups, name, 0)
  }

  // ---------- swaps ----------

  ghost predicate InRange(swaps: seq<(nat, nat)>, n: nat) {
    forall s :: s in swaps ==> s.0 < n && s.1 < n
  }

  /** The random source swaps only what it was asked to. */
  ghost predicate Proper(random: Randomness) {
    forall g, n :: InRange(random(g, n), n)
  }

  ghost function Swapped(order: seq<nat>, swaps: seq<(nat, nat)>): (r: seq<nat>)
    requires InRange(swaps, |order|)
    ensures |r| == |order|
    decreases |swaps|
  {
    if swaps == [] then order
    else
      var (i, j) := swaps[0];
      assert swaps[0] in swaps;
      Swapped(order[i := order[j]][j := order[i]], swaps[1..])
  }

  lemma {:induction false} SwappedPermutes(order: seq<nat>, swaps: seq<(nat, nat)>)
    requires InRange(swaps, |order|)
    ensures multiset(Swapped(order, swaps)) == multiset(order)
    decreases |swaps|
  {
    if swaps != [] {
      assert swaps[0] in swaps;
      var (i, j) := swaps[0];
      SwappedPermutes(order[i := order[j]][j := order[i]], swaps[1..]);
    }
  }

  method ApplySwaps(order: array<nat>, swaps: seq<(nat, nat)>)
    requires InRange(swaps, order.Length)
    modifies order
    ensures order[..] == Swapped(old(order[..]), swaps)
  {
    for k := 0 to |swaps|
      invariant Swapped(order[..], swaps[k..]) == Swapped(old(order[..]), swaps)
    {
      assert swaps[k] in swaps;
      assert swaps[k..][0] == swaps[k] && swaps[k..][1..] == swaps[k + 1..];
      var (i, j) := swaps[k];
      ghost var before := order[..];
      order[i], order[j] := order[j], order[i];
      assert order[..] == before[i := before[j]][j := before[i]];
    }
  }

  // ---------- the permutation ----------

  /** The slots of group g among the first n, in ascending order. */
  function Slots(groups: Groups, names: seq<Bytes>, g: nat, n: nat): (slots: seq<nat>)
    requires n <= |names|
    ensures forall s: nat :: s in slots <==> s < n && Group(groups, names[s]) == g
    ensures forall i, j :: 0 <= i < j < |slots| ==> slots[i] < slots[j]
  {
    if n == 0 then []
    else
      var front := Slots(groups, names, g, n - 1);
      assert forall k :: 0 <= k < |front| ==> front[k] in front;
      if Group(groups, names[n - 1]) == g then front + [n - 1] else front
  }

  ghost function Order(groups: Groups, names: seq<Bytes>, random: Randomness, g: nat): (order: seq<nat>)
    requires Proper(random)
    ensures |order| == |Slots(groups, names, g, |names|)|
  {
    var slots := Slots(groups, names, g, |names|);
    Swapped(slots, random(g, |slots|))
  }

  ghost function Rank(slots: seq<nat>, slot: nat): (k: nat)
    requires slot in slots
    ensures k < |slots| && slots[k] == slot
  {
    if slots[0] == slot then 0 else 1 + Rank(slots[1..], slot)
  }

  /** The entry that ends up in a slot: its own outside the groups, and inside
      one whatever the swaps of that group left at the slot's rank. */
  ghost function EntryAt(groups: Groups, names: seq<Bytes>, random: Randomness, slot: nat): nat
    requires Proper(random) && slot < |names|
  {
    var g := Group(groups, names[slot]);
    if g < 0 then slot
    else Order(groups, names, random, g)[Rank(Slots(groups, names, g, |names|), slot)]
  }

  ghost function Shuffled(groups: Groups, names: seq<Bytes>, random: Randomness): (perm: seq<nat>)
    requires Proper(random)
    ensures |perm| == |names|
  {
    seq(|names|, i requires 0 <= i < |names| => EntryAt(groups, names, random, i))
  }

  function Identity(n: nat): (perm: seq<nat>)
    ensures |perm| == n && forall i :: 0 <= i < n ==> perm[i] == i
  {
    seq(n, i => i)
  }

  lemma OrderMembers(groups: Groups, names: seq<Bytes>, random: Randomness, g: nat)
    requires Proper(random)
    ensures var order := Order(groups, names, random, g);
      && (forall k :: 0 <= k < |order| ==> order[k] < |names| && Group(groups, names[order[k]]) == g)
      && (forall i, j :: 0 <= i < j < |order| ==> order[i] != order[j])
  {
    var slots := Slots(groups, names, g, |names|);
    var order := Order(groups, names, random, g);
    SwappedPermutes(slots, random(g, |slots|));
    forall k | 0 <= k < |order| ensures order[k] in slots {
      assert order[k] in multiset(order);
    }
    DistinctHasOne(slots);
    OneIsDistinct(order);
  }

  lemma {:induction false} DistinctHasOne(s: seq<nat>)
    requires forall i, j :: 0 <= i < j < |s| ==> s[i] < s[j]
    ensures forall x :: multiset(s)[x] <= 1
  {
    if s != [] {
      DistinctHasOne(s[1..]);
      assert s == [s[0]] + s[1..];
      assert s[0] !in s[1..];
    }
  }

  lemma TwiceCounts(s: seq<nat>, i: nat, j: nat)
    requires i < j < |s| && s[i] == s[j]
    ensures multiset(s)[s[i]] >= 2
  {
    assert s == s[..i] + [s[i]] + s[i + 1..j] + [s[j]] + s[j + 1..];
  }

  lemma OneIsDistinct(s: seq<nat>)
    requires forall x :: multiset(s)[x] <= 1
    ensures forall i, j :: 0 <= i < j < |s| ==> s[i] != s[j]
  {
    forall i, j | 0 <= i < j < |s| ensures s[i] != s[j] {
      if s[i] == s[j] {
        TwiceCounts(s, i, j);
      }
    }
  }

  /** The shuffle is a bijection on slots that keeps every group within its own
      slots and fixes every slot outside the groups. */
  lemma ShuffledIsBijection(groups: Groups, names: seq<Bytes>, random: Randomness)
    requires Proper(random)
    ensures var perm := Shuffled(groups, names, random);
      && (forall i :: 0 <= i < |names| ==> perm[i] < |names| && Group(groups, names[perm[i]]) == Group(groups, names[i]))
      && (forall i :: 0 <= i < |names| && Group(groups, names[i]) < 0 ==> perm[i] == i)
      && (forall i, j :: 0 <= i < j < |names| ==> perm[i] != perm[j])
  {
    hide Order, Slots, Group;
    var perm := Shuffled(groups, names, random);
    forall i | 0 <= i < |names|
      ensures perm[i] < |names| && Group(groups, names[perm[i]]) == Group(groups, names[i])
    {
      if Group(groups, names[i]) >= 0 {
        OrderMembers(groups, names, random, Group(groups, names[i]));
      }
    }
    forall i, j | 0 <= i < j < |names| ensures perm[i] != perm[j] {
      if perm[i] == perm[j] && Group(groups, names[i]) >= 0 {
        OrderMembers(groups, names, random, Group(groups, names[i]));
      }
    }
  }

  /** A group with fewer than two members has nothing to shuffle. */
  lemma FewStay(groups: Groups, names: seq<Bytes>, random: Randomness, g: nat)
    requires Proper(random) && |Slots(groups, names, g, |names|)| < 2
    ensures forall i :: 0 <= i < |names| && Group(groups, names[i]) == g ==> Shuffled(groups, names, random)[i] == i
  {
    hide Group;
    OrderMembers(groups, names, random, g);
    var slots := Slots(groups, names, g, |names|);
    var order := Order(groups, names, random, g);
    if |slots| == 1 {
      assert order[0] in slots;
    }
  }

  ghost predicate Moved(perm: seq<nat>) {
    exists i :: 0 <= i < |perm| && perm[i] != i
  }

  lemma MovedByUpdate(perm: seq<nat>, slot: nat, entry: nat)
    requires slot < |perm| && perm[slot] == slot
    ensures Moved(perm[slot := entry]) <==> Moved(perm) || entry != slot
  {
    if Moved(perm) {
      var i :| 0 <= i < |perm| && perm[i] != i;
      assert perm[slot := entry][i] != i;
    }
    if entry != slot {
      assert perm[slot := entry][slot] != slot;
    }
  }

  method CollectSlots(groups: Groups, names: seq<Bytes>) returns (slots: map<int, seq<nat>>)
    ensures forall g: nat :: Slots(groups, names, g, |names|) == if g in slots then slots[g] else []
  {
    hide Group;
    slots := map[];
    for i := 0 to |names|
      invariant forall g: nat :: Slots(groups, names, g, i) == if g in slots then slots[g] else []
    {
      var g := Group(groups, names[i]);
      if g >= 0 {
        slots := slots[g := (if g in slots then slots[g] else []) + [i]];
      }
    }
  }

  /** permutation: the shuffle, or none when nothing would move. */
  method Permutation(groups: Groups, names: seq<Bytes>, random: Randomness) returns (result: Option<seq<nat>>)
    requires Proper(random)
    ensures result == if Shuffled(groups, names, random) == Identity(|names|) then None
                      else Some(Shuffled(groups, names, random))
  {
    hide Group, Slots, Order, EntryAt, Shuffled, Identity;
    var slots := CollectSlots(groups, names);
    var n := |names|;
    var perm := new nat[n](i => i);
    ghost var want := Shuffled(groups, names, random);
    var moved := false;
    for g := 0 to |groups|
      invariant forall i :: 0 <= i < n ==> perm[i] == if 0 <= Group(groups, names[i]) < g then want[i] else i
      invariant moved <==> Moved(perm[..])
    {
      if g in slots && |slots[g]| >= 2 {
        moved := ShuffleGroup(groups, names, random, g, slots[g], perm, moved);
      } else {
        FewStay(groups, names, random, g);
      }
    }
    ShuffledIsBijection(groups, names, random);
    assert perm[..] == want;
    if !moved {
      return None;
    }
    result := Some(perm[..]);
  }

  lemma MembersOf(groups: Groups, names: seq<Bytes>, random: Randomness, g: nat, k: nat)
    requires Proper(random) && k < |Slots(groups, names, g, |names|)|
    ensures var slot := Slots(groups, names, g, |names|)[k];
      && slot < |names| && slot !in Slots(groups, names, g, |names|)[..k]
      && Shuffled(groups, names, random)[slot] == Order(groups, names, random, g)[k]
  {
    hide Group, Order, Swapped;
    var slots := Slots(groups, names, g, |names|);
    assert slots[k] in slots;
    assert Rank(slots, slots[k]) == k;
  }

  method ShuffleGroup(groups: Groups, names: seq<Bytes>, random: Randomness, g: nat, members: seq<nat>,
                      perm: array<nat>, before: bool) returns (moved: bool)
    requires Proper(random) && perm.Length == |names| && members == Slots(groups, names, g, |names|)
    requires before <==> Moved(perm[..])
    requires forall i :: i in members ==> perm[i] == i
    modifies perm
    ensures forall i :: 0 <= i < |names| ==>
      perm[i] == if i in members then Shuffled(groups, names, random)[i] else old(perm[i])
    ensures moved <==> Moved(perm[..])
  {
    hide Group, Slots, Swapped, Shuffled, EntryAt, Moved;
    var order := new nat[|members|](i requires 0 <= i < |members| => members[i]);
    assert order[..] == members;
    ApplySwaps(order, random(g, |members|));
    assert order[..] == Order(groups, names, random, g);
    moved := before;
    for k := 0 to |members|
      invariant order[..] == Order(groups, names, random, g)
      invariant forall i :: 0 <= i < |names| ==>
        perm[i] == if i in members[..k] then Shuffled(groups, names, random)[i] else old(perm[i])
      invariant moved <==> Moved(perm[..])
    {
      var slot := members[k];
      MembersOf(groups, names, random, g, k);
      assert slot in members;
      assert members[..k + 1] == members[..k] + [slot];
      assert order[k] == order[..][k];
      MovedByUpdate(perm[..], slot, order[k]);
      assert perm[..][slot := order[k]] == perm[..slot] + [order[k]] + perm[slot + 1..];
      perm[slot] := order[k];
      if order[k] != slot {
        moved := true;
      }
    }
    assert members[..|members|] == members;
  }

  // ---------- rearranging by a bijection ----------

  ghost predicate Bijection(perm: seq<nat>) {
    && Within(perm, |perm|)
    && (forall i, j :: 0 <= i < j < |perm| ==> perm[i] != perm[j])
  }

  predicate Within(perm: seq<nat>, n: nat) {
    forall i :: 0 <= i < |perm| ==> perm[i] < n
  }

  lemma ShuffleIsWithin(groups: Groups, names: seq<Bytes>, random: Randomness)
    requires Proper(random)
    ensures var perm := Shuffled(groups, names, random); Bijection(perm) && Within(perm, |names|)
  {
    hide Group, EntryAt, Shuffled;
    ShuffledIsBijection(groups, names, random);
  }

  function Arranged<T>(xs: seq<T>, perm: seq<nat>): (ys: seq<T>)
    requires Within(perm, |xs|)
    ensures |ys| == |perm|
    ensures forall i :: 0 <= i < |perm| ==> ys[i] == xs[perm[i]]
  {
    seq(|perm|, i requires 0 <= i < |perm| => xs[perm[i]])
  }

  ghost function Elements(s: seq<nat>): (e: set<nat>)
    ensures forall x :: x in e <==> x in s
  {
    if s == [] then {} else {s[0]} + Elements(s[1..])
  }

  ghost function Below(n: nat): (b: set<nat>)
    ensures forall x: nat :: x in b <==> x < n
    ensures |b| == n
  {
    if n == 0 then {} else Below(n - 1) + {n - 1}
  }

  lemma {:induction false} DistinctCard(s: seq<nat>)
    requires forall i, j :: 0 <= i < j < |s| ==> s[i] != s[j]
    ensures |Elements(s)| == |s|
  {
    if s != [] {
      DistinctCard(s[1..]);
      assert s[0] !in s[1..];
    }
  }

  /** A bijection reaches every slot. */
  lemma Onto(perm: seq<nat>, x: nat)
    requires Bijection(perm) && x < |perm|
    ensures x in perm
  {
    DistinctCard(perm);
    if x !in perm {
      SubsetCard(Elements(perm), Below(|perm|) - {x});
    }
  }

  lemma {:induction false} SubsetCard(a: set<nat>, b: set<nat>)
    requires a <= b
    ensures |a| <= |b|
    decreases a
  {
    if x :| x in a {
      SubsetCard(a - {x}, b - {x});
    }
  }

  lemma {:induction false} CountOfDistinct(s: seq<nat>, x: nat)
    requires forall i, j :: 0 <= i < j < |s| ==> s[i] != s[j]
    ensures multiset(s)[x] == if x in s then 1 else 0
  {
    if s != [] {
      CountOfDistinct(s[1..], x);
      assert s == [s[0]] + s[1..];
    }
  }

  lemma BijectionIsIdentityBag(perm: seq<nat>)
    requires Bijection(perm)
    ensures multiset(perm) == multiset(Identity(|perm|))
  {
    forall x: nat ensures multiset(perm)[x] == multiset(Identity(|perm|))[x] {
      CountOfDistinct(perm, x);
      CountOfDistinct(Identity(|perm|), x);
      if x < |perm| {
        Onto(perm, x);
        assert Identity(|perm|)[x] == x;
      }
    }
  }

  lemma ArrangedAround<T>(xs: seq<T>, a: seq<nat>, x: nat, b: seq<nat>)
    requires Within(a, |xs|) && x < |xs| && Within(b, |xs|)
    ensures Within(a + [x] + b, |xs|) && Within(a + b, |xs|)
    ensures multiset(Arranged(xs, a + [x] + b)) == multiset(Arranged(xs, a + b)) + multiset{xs[x]}
  {
    assert Arranged(xs, a + [x] + b) == Arranged(xs, a) + [xs[x]] + Arranged(xs, b);
    assert Arranged(xs, a + b) == Arranged(xs, a) + Arranged(xs, b);
  }

  lemma Cancel<T>(a: multiset<T>, b: multiset<T>, c: multiset<T>)
    requires a + c == b + c
    ensures a == b
  {
    assert a == a + c - c;
    assert b == b + c - c;
  }

  lemma BagAround<T>(a: seq<T>, x: T, b: seq<T>)
    ensures multiset(a + [x] + b) == multiset(a + b) + multiset{x}
  {}

  lemma {:induction false} ArrangedBags<T>(xs: seq<T>, p: seq<nat>, q: seq<nat>)
    requires multiset(p) == multiset(q)
    requires Within(p, |xs|) && Within(q, |xs|)
    ensures multiset(Arranged(xs, p)) == multiset(Arranged(xs, q))
    decreases |p|
  {
    hide *;
    if p == [] {
      assert |q| == |multiset(q)| == 0;
    } else {
      var x, rest := p[0], p[1..];
      assert p == [] + [x] + rest && [] + rest == rest;
      assert x in multiset(q);
      var a, b := TakeOut(q, x);
      BagAround([], x, rest);
      BagAround(a, x, b);
      Cancel(multiset(rest), multiset(a + b), multiset{x});
      WithinParts(xs, [], x, rest);
      WithinParts(xs, a, x, b);
      ArrangedAround(xs, [], x, rest);
      ArrangedAround(xs, a, x, b);
      ArrangedBags(xs, rest, a + b);
    }
  }

  lemma TakeOut<T>(q: seq<T>, x: T) returns (a: seq<T>, b: seq<T>)
    requires x in multiset(q)
    ensures q == a + [x] + b
  {
    var j :| 0 <= j < |q| && q[j] == x;
    a, b := q[..j], q[j + 1..];
  }

  lemma WithinParts<T>(xs: seq<T>, a: seq<nat>, x: nat, b: seq<nat>)
    requires Within(a + [x] + b, |xs|)
    ensures Within(a, |xs|) && x < |xs| && Within(b, |xs|) && Within(a + b, |xs|)
  {
    var s := a + [x] + b;
    assert forall i :: 0 <= i < |a| ==> s[i] == a[i];
    assert s[|a|] == x;
    assert forall i :: 0 <= i < |b| ==> s[|a| + 1 + i] == b[i];
  }

  /** Rearranging by a bijection loses and duplicates nothing. */
  lemma ArrangedKeepsAll<T>(xs: seq<T>, perm: seq<nat>)
    requires Bijection(perm) && |perm| == |xs|
    ensures multiset(Arranged(xs, perm)) == multiset(xs)
  {
    BijectionIsIdentityBag(perm);
    ArrangedBags(xs, perm, Identity(|xs|));
    assert Arranged(xs, Identity(|xs|)) == xs;
  }
}
