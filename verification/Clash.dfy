/** Clash, Mihomo and Stash configurations: a YAML node tree whose proxies are the
    hosts and whose proxy-groups list them by name. YAML text is not modelled. */
module ClashConfig {
  import opened Strings
  import opened Shuffle
  import opened Reorder
  import opened Followers

  datatype Kind = ScalarKind | SequenceKind | MappingKind | AliasKind

  /** A node of the tree. A mapping's content alternates keys and values; `style`
      stands for comments, anchors, tags and quoting. */
  datatype Node = Node(kind: Kind, value: Bytes, content: seq<Node>, style: nat)

  const PROXIES: Bytes := "proxies"
  const GROUPS: Bytes := "proxy-groups"
  const NAME: Bytes := "name"

  /** The index of the first value under a key, |content| for none. */
  function ValueAt(content: seq<Node>, key: Bytes, i: nat): (k: nat)
    requires i <= |content|
    ensures i < k <= |content| || k == |content|
    ensures k < |content| ==> content[k - 1].value == key
    decreases |content| - i
  {
    if i + 1 >= |content| then |content|
    else if content[i].value == key then i + 1
    else ValueAt(content, key, i + 2)
  }

  function MappingValue(node: Node, key: Bytes): (v: Option<Node>)
    ensures v.Some? ==> node.kind.MappingKind? && v.value in node.content
  {
    if !node.kind.MappingKind? then None
    else
      var k := ValueAt(node.content, key, 0);
      if k < |node.content| then Some(node.content[k]) else None
  }

  function ScalarValue(node: Option<Node>): Bytes {
    if node.Some? && node.value.kind.ScalarKind? then node.value.value else []
  }

  /** The node with the content of the value under key replaced. */
  function WithContent(node: Node, key: Bytes, content: seq<Node>): Node
    requires MappingValue(node, key).Some?
  {
    var k := ValueAt(node.content, key, 0);
    node.(content := node.content[k := node.content[k].(content := content)])
  }

  function SequenceUnder(node: Node, key: Bytes): (items: Option<seq<Node>>)
    ensures items.Some? ==> MappingValue(node, key).Some?
  {
    var v := MappingValue(node, key);
    if v.Some? && v.value.kind.SequenceKind? then Some(v.value.content) else None
  }

  // ---------- names ----------

  function ProxyName(proxy: Node): Bytes {
    ScalarValue(MappingValue(proxy, NAME))
  }

  function ProxyNames(proxies: seq<Node>): (names: seq<Bytes>)
    ensures |names| == |proxies|
    ensures forall i :: 0 <= i < |proxies| ==> names[i] == ProxyName(proxies[i])
  {
    seq(|proxies|, i requires 0 <= i < |proxies| => ProxyName(proxies[i]))
  }

  function MemberNames(members: seq<Node>): (names: seq<Bytes>)
    ensures |names| == |members|
    ensures forall i :: 0 <= i < |members| ==> names[i] == ScalarValue(Some(members[i]))
  {
    seq(|members|, i requires 0 <= i < |members| => ScalarValue(Some(members[i])))
  }

  /** The nodes by name: of several with one name, the last. */
  function ByName(members: seq<Node>): (nodes: map<Bytes, Node>)
    ensures forall n :: n in nodes <==> n in MemberNames(members)
    ensures forall n :: n in nodes ==> nodes[n] in members && ScalarValue(Some(nodes[n])) == n
  {
    if members == [] then map[]
    else
      var last := members[|members| - 1];
      var front := ByName(members[..|members| - 1]);
      assert forall n :: n in MemberNames(members[..|members| - 1]) ==> n in MemberNames(members);
      NamesSnoc(members);
      front[ScalarValue(Some(last)) := last]
  }

  lemma NamesSnoc(members: seq<Node>)
    requires members != []
    ensures MemberNames(members) == MemberNames(members[..|members| - 1]) + [ScalarValue(Some(members[|members| - 1]))]
  {}

  // ---------- groups ----------

  /** The members of one group, following the new slots. */
  function FollowedMembers(members: seq<Node>, index: Index): (r: seq<Node>)
    ensures |r| == |members|
  {
    var names := MemberNames(members);
    var list := Reordered(names, index);
    if list == names then members
    else
      ReorderedHolds(names, index);
      seq(|members|, i requires 0 <= i < |members| => ByName(members)[list[i]])
  }

  lemma ReorderedHolds(names: seq<Bytes>, index: Index)
    ensures forall i :: 0 <= i < |names| ==> Reordered(names, index)[i] in names
  {
    hide Reordered;
    ReorderedFollows(names, index);
    var r := Reordered(names, index);
    forall i | 0 <= i < |names| ensures r[i] in names {
      assert r[i] in multiset(r);
    }
  }

  function FollowedGroup(group: Node, index: Index): Node {
    var members := SequenceUnder(group, PROXIES);
    if members.None? then group else WithContent(group, PROXIES, FollowedMembers(members.value, index))
  }

  function FollowedGroups(groups: seq<Node>, index: Index): (r: seq<Node>)
    ensures |r| == |groups|
    ensures forall i :: 0 <= i < |groups| ==> r[i] == FollowedGroup(groups[i], index)
  {
    seq(|groups|, i requires 0 <= i < |groups| => FollowedGroup(groups[i], index))
  }

  method ReorderMembers(members: seq<Node>, index: Index) returns (r: seq<Node>)
    ensures r == FollowedMembers(members, index)
  {
    hide Reordered, ByName, FollowedMembers, Mapped, MemberNames;
    var list := new Bytes[|members|](i requires 0 <= i < |members| => ScalarValue(Some(members[i])));
    assert list[..] == MemberNames(members);
    var changed := ReorderNames(list, index);
    var reordered := list[..];
    assert reordered == Reordered(MemberNames(members), index);
    if !changed {
      UnchangedMembers(members, index);
      return members;
    }
    FollowedIsMapped(members, index);
    var byName := CollectByName(members);
    r := ReplaceAll(members, reordered, byName);
  }

  lemma UnchangedMembers(members: seq<Node>, index: Index)
    requires Reordered(MemberNames(members), index) == MemberNames(members)
    ensures FollowedMembers(members, index) == members
  {}

  method ReplaceAll(members: seq<Node>, list: seq<Bytes>, byName: map<Bytes, Node>) returns (r: seq<Node>)
    requires |list| == |members| && forall n :: n in list ==> n in byName
    ensures r == Mapped(byName, list)
  {
    r := members;
    for i := 0 to |members|
      invariant |r| == |members|
      invariant forall k :: 0 <= k < i ==> list[k] in byName && r[k] == byName[list[k]]
    {
      assert list[i] in list;
      r := r[i := byName[list[i]]];
    }
  }

  method CollectByName(members: seq<Node>) returns (byName: map<Bytes, Node>)
    ensures byName == ByName(members)
  {
    hide ByName;
    byName := map[];
    ByNameOfNone(members);
    for i := 0 to |members|
      invariant byName == ByName(members[..i])
    {
      ByNameStep(members, i);
      byName := byName[ScalarValue(Some(members[i])) := members[i]];
    }
    assert members[..|members|] == members;
  }

  lemma ByNameOfNone(members: seq<Node>)
    ensures ByName(members[..0]) == map[]
  {}

  lemma ByNameStep(members: seq<Node>, i: nat)
    requires i < |members|
    ensures ByName(members[..i + 1]) == ByName(members[..i])[ScalarValue(Some(members[i])) := members[i]]
  {
    assert members[..i + 1][..i] == members[..i];
  }

  // ---------- the shuffle ----------

  ghost function NewIndex(groups: Groups, proxies: seq<Node>, random: Randomness): Index
    requires Proper(random)
  {
    var perm := Shuffled(groups, ProxyNames(proxies), random);
    ShuffleIsWithin(groups, ProxyNames(proxies), random);
    SlotIndex(groups, ProxyNames(proxies), perm, |perm|)
  }

  ghost function ShuffledProxies(groups: Groups, proxies: seq<Node>, random: Randomness): (r: seq<Node>)
    requires Proper(random)
    ensures |r| == |proxies|
  {
    var perm := Shuffled(groups, ProxyNames(proxies), random);
    ShuffleIsWithin(groups, ProxyNames(proxies), random);
    Arranged(proxies, perm)
  }

  /** The document after the shuffle. */
  ghost function ShuffledRoot(groups: Groups, root: Node, random: Randomness): Node
    requires Proper(random) && SequenceUnder(root, PROXIES).Some?
  {
    var proxies := SequenceUnder(root, PROXIES).value;
    var moved := WithContent(root, PROXIES, ShuffledProxies(groups, proxies, random));
    var lists := SequenceUnder(moved, GROUPS);
    if lists.None? then moved
    else WithContent(moved, GROUPS, FollowedGroups(lists.value, NewIndex(groups, proxies, random)))
  }

  method ApplyClash(groups: Groups, random: Randomness, document: Option<Node>) returns (out: Option<Node>,
          changed: bool)
    requires Proper(random)
    ensures !changed ==> out == document
    ensures document.None? || SequenceUnder(document.value, PROXIES).None? ==> !changed
    ensures document.Some? && SequenceUnder(document.value, PROXIES).Some? ==>
      var proxies := SequenceUnder(document.value, PROXIES).value;
      && (changed <==> Shuffled(groups, ProxyNames(proxies), random) != Identity(|proxies|))
      && (changed ==> out == Some(ShuffledRoot(groups, document.value, random)))
  {
    hide Group, Shuffled, MappingValue, WithContent, FollowedGroup;
    if document.None? {
      return document, false;
    }
    var root := document.value;
    var proxies := SequenceUnder(root, PROXIES);
    if proxies.None? {
      return document, false;
    }
    var names: seq<Bytes> := [];
    for i := 0 to |proxies.value|
      invariant |names| == i && forall j :: 0 <= j < i ==> names[j] == ProxyName(proxies.value[j])
    {
      names := names + [ScalarValue(MappingValue(proxies.value[i], NAME))];
    }
    assert names == ProxyNames(proxies.value);
    var found := Permutation(groups, names, random);
    if found.None? {
      return document, false;
    }
    ShuffleIsWithin(groups, names, random);
    var shuffled, newIndex := MoveSlots(groups, names, found.value, proxies.value);
    assert shuffled == ShuffledProxies(groups, proxies.value, random);
    root := WithContent(root, PROXIES, shuffled);
    var lists := SequenceUnder(root, GROUPS);
    if lists.Some? {
      var moved := FollowGroups(lists.value, newIndex);
      root := WithContent(root, GROUPS, moved);
    }
    out, changed := Some(root), true;
  }

  method FollowGroups(groups: seq<Node>, index: Index) returns (moved: seq<Node>)
    ensures moved == FollowedGroups(groups, index)
  {
    hide FollowedMembers, WithContent;
    moved := groups;
    for i := 0 to |groups|
      invariant |moved| == |groups|
      invariant forall j :: 0 <= j < |groups| ==> moved[j] == if j < i then FollowedGroup(groups[j], index) else groups[j]
    {
      var members := SequenceUnder(moved[i], PROXIES);
      if members.None? {
        continue;
      }
      var list := ReorderMembers(members.value, index);
      moved := moved[i := WithContent(moved[i], PROXIES, list)];
    }
  }

  // ---------- what a group ends up with ----------

  predicate NamesTellApart(members: seq<Node>) {
    forall i, j :: 0 <= i < |members| && 0 <= j < |members| && ScalarValue(Some(members[i])) == ScalarValue(Some(members[j]))
      ==> members[i] == members[j]
  }

  lemma FollowedNames(members: seq<Node>, index: Index)
    ensures MemberNames(FollowedMembers(members, index)) == Reordered(MemberNames(members), index)
  {
    hide Reordered, ByName;
    var names := MemberNames(members);
    var list := Reordered(names, index);
    ReorderedHolds(names, index);
    if list != names {
      var after := FollowedMembers(members, index);
      forall i | 0 <= i < |members| ensures MemberNames(after)[i] == list[i] {
        assert after[i] == ByName(members)[list[i]];
      }
    }
  }

  /** A group's names follow the slots, whatever its members are. */
  lemma GroupFollows(members: seq<Node>, index: Index)
    ensures var (before, after) := (MemberNames(members), MemberNames(FollowedMembers(members, index)));
      && multiset(after) == multiset(before) && |after| == |before|
      && (forall i :: 0 <= i < |before| && before[i] !in index ==> after[i] == before[i])
      && (forall i, k :: 0 <= i < k < |before| && before[i] in index && before[k] in index ==>
            after[i] in index && after[k] in index && index[after[i]] <= index[after[k]])
  {
    hide Reordered, FollowedMembers, MemberNames;
    var before := MemberNames(members);
    FollowedNames(members, index);
    ReorderedFollows(before, index);
    forall i, k | 0 <= i < k < |before| && before[i] in index && before[k] in index
      ensures var after := Reordered(before, index);
        after[i] in index && after[k] in index && index[after[i]] <= index[after[k]]
    {
      ReorderedBySlot(before, index, i, k);
    }
  }

  /** A group whose list changes keeps all its member nodes exactly when nodes
      of one name are equal: otherwise the last of them replaces the others,
      comments and all, and so does it for members that are no scalars. */
  lemma GroupKeepsMembers(members: seq<Node>, index: Index)
    requires Reordered(MemberNames(members), index) != MemberNames(members)
    ensures multiset(FollowedMembers(members, index)) == multiset(members) <==> NamesTellApart(members)
  {
    hide Reordered, ByName, Mapped;
    var names := MemberNames(members);
    var list := Reordered(names, index);
    FollowedIsMapped(members, index);
    var after := Mapped(ByName(members), list);
    if multiset(after) == multiset(members) {
      AllAreLast(members, list);
    }
    if NamesTellApart(members) {
      ReorderedFollows(names, index);
      MappedBags(ByName(members), names, list);
      SelfMapped(members);
    }
  }

  lemma FollowedIsMapped(members: seq<Node>, index: Index)
    requires Reordered(MemberNames(members), index) != MemberNames(members)
    ensures var list := Reordered(MemberNames(members), index);
      && (forall n :: n in list ==> n in ByName(members))
      && FollowedMembers(members, index) == Mapped(ByName(members), list)
  {
    hide Reordered, ByName;
    ReorderedHolds(MemberNames(members), index);
  }

  lemma SelfMapped(members: seq<Node>)
    requires NamesTellApart(members)
    ensures members == Mapped(ByName(members), MemberNames(members))
  {
    hide ByName;
    var names := MemberNames(members);
    forall i | 0 <= i < |members| ensures members[i] == ByName(members)[names[i]] {
      assert ByName(members)[names[i]] in members;
    }
  }

  /** If the new list has all the nodes, every node is the last one of its name. */
  lemma AllAreLast(members: seq<Node>, list: seq<Bytes>)
    requires forall n :: n in list ==> n in ByName(members)
    requires multiset(Mapped(ByName(members), list)) == multiset(members)
    ensures NamesTellApart(members)
  {
    hide ByName, Mapped;
    forall i | 0 <= i < |members| ensures members[i] == ByName(members)[ScalarValue(Some(members[i]))] {
      var after := Mapped(ByName(members), list);
      assert members[i] in multiset(after);
      var k :| 0 <= k < |after| && after[k] == members[i];
      assert list[k] in list;
    }
  }

  function Mapped(nodes: map<Bytes, Node>, names: seq<Bytes>): (r: seq<Node>)
    requires forall n :: n in names ==> n in nodes
    ensures |r| == |names| && forall i :: 0 <= i < |names| ==> r[i] == nodes[names[i]]
  {
    seq(|names|, i requires 0 <= i < |names| => (assert names[i] in names; nodes[names[i]]))
  }

  lemma MappedAround(nodes: map<Bytes, Node>, a: seq<Bytes>, x: Bytes, b: seq<Bytes>)
    requires forall n :: n in a + [x] + b ==> n in nodes
    ensures x in nodes && (forall n :: n in a + b ==> n in nodes) && forall n :: n in b ==> n in nodes
    ensures multiset(Mapped(nodes, a + [x] + b)) == multiset(Mapped(nodes, a + b)) + multiset{nodes[x]}
  {
    var s := a + [x] + b;
    assert x in s;
    assert forall n :: n in a + b ==> n in s;
    var p, q := Mapped(nodes, a), Mapped(nodes, b);
    assert Mapped(nodes, s) == p + [nodes[x]] + q;
    assert Mapped(nodes, a + b) == p + q;
    BagAround(p, nodes[x], q);
  }

  lemma {:induction false} MappedBags(nodes: map<Bytes, Node>, a: seq<Bytes>, b: seq<Bytes>)
    requires multiset(a) == multiset(b)
    requires (forall n :: n in a ==> n in nodes) && (forall n :: n in b ==> n in nodes)
    ensures multiset(Mapped(nodes, a)) == multiset(Mapped(nodes, b))
    decreases |a|
  {
    hide *;
    if a == [] {
      assert |b| == |multiset(b)| == 0;
    } else {
      var x, rest := a[0], a[1..];
      assert a == [] + [x] + rest && [] + rest == rest;
      assert x in multiset(b);
      var p, q := TakeOut(b, x);
      BagAround([], x, rest);
      BagAround(p, x, q);
      Cancel(multiset(rest), multiset(p + q), multiset{x});
      MappedAround(nodes, [], x, rest);
      MappedAround(nodes, p, x, q);
      MappedBags(nodes, rest, p + q);
    }
  }

  // ---------- the rest of the document ----------

  /** Replacing one value's content leaves every other node where and as it was. */
  lemma WithContentKeepsRest(node: Node, key: Bytes, content: seq<Node>)
    requires MappingValue(node, key).Some?
    ensures var r := WithContent(node, key, content);
      && r.kind == node.kind && r.value == node.value && r.style == node.style && |r.content| == |node.content|
      && (forall i :: 0 <= i < |node.content| && i != ValueAt(node.content, key, 0) ==> r.content[i] == node.content[i])
      && var (was, now) := (node.content[ValueAt(node.content, key, 0)], r.content[ValueAt(node.content, key, 0)]);
         now == was.(content := content)
  {}

  lemma {:induction false} SameKeys(a: seq<Node>, b: seq<Node>, key: Bytes, i: nat)
    requires |a| == |b| && i <= |a|
    requires forall j :: 0 <= j < |a| ==> a[j].value == b[j].value
    ensures ValueAt(a, key, i) == ValueAt(b, key, i)
    decreases |a| - i
  {
    if i + 1 < |a| && a[i].value != key {
      SameKeys(a, b, key, i + 2);
    }
  }

  /** The shuffled document: the proxies are the same nodes rearranged, the lists
      of the groups follow, and no other node changes. */
  lemma DocumentKeepsRest(groups: Groups, root: Node, random: Randomness)
    requires Proper(random) && SequenceUnder(root, PROXIES).Some?
    ensures var r := ShuffledRoot(groups, root, random);
      var proxies := SequenceUnder(root, PROXIES).value;
      var shuffled := ShuffledProxies(groups, proxies, random);
      var (at, k) := (ValueAt(root.content, PROXIES, 0), ValueAt(root.content, GROUPS, 0));
      && multiset(shuffled) == multiset(proxies)
      && r == root.(content := r.content) && |r.content| == |root.content|
      && (forall i :: 0 <= i < |root.content| && i != at && i != k ==> r.content[i] == root.content[i])
      && r.content[at] == root.content[at].(content := shuffled)
      && (k < |root.content| && !root.content[k].kind.SequenceKind? ==> r.content[k] == root.content[k])
      && (k < |root.content| && root.content[k].kind.SequenceKind? ==>
            var lists := FollowedGroups(root.content[k].content, NewIndex(groups, proxies, random));
            r.content[k] == root.content[k].(content := lists))
  {
    hide Shuffled, Group, FollowedGroup, NewIndex, ShuffledProxies, ValueAt;
    var proxies := SequenceUnder(root, PROXIES).value;
    RearrangedProxies(groups, proxies, random);
    var moved := WithContent(root, PROXIES, ShuffledProxies(groups, proxies, random));
    WithContentKeepsRest(root, PROXIES, ShuffledProxies(groups, proxies, random));
    SameKeys(root.content, moved.content, GROUPS, 0);
    KeysApart(root.content);
    if SequenceUnder(moved, GROUPS).Some? {
      WithContentKeepsRest(moved, GROUPS, FollowedGroups(SequenceUnder(moved, GROUPS).value, NewIndex(groups, proxies, random)));
    }
  }

  lemma KeysApart(content: seq<Node>)
    ensures ValueAt(content, PROXIES, 0) < |content| ==> ValueAt(content, PROXIES, 0) != ValueAt(content, GROUPS, 0)
  {
    assert PROXIES != GROUPS by { assert |PROXIES| != |GROUPS|; }
  }

  lemma RearrangedProxies(groups: Groups, proxies: seq<Node>, random: Randomness)
    requires Proper(random)
    ensures multiset(ShuffledProxies(groups, proxies, random)) == multiset(proxies)
  {
    hide Shuffled;
    ShuffleIsWithin(groups, ProxyNames(proxies), random);
    ArrangedKeepsAll(proxies, Shuffled(groups, ProxyNames(proxies), random));
  }
}
