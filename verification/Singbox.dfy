/** sing-box configurations: JSON whose outbounds are hosts and selectors over them.
    JSON text is not modelled, only the tree it denotes. */
module Singbox {
  import opened Strings
  import opened Shuffle
  import opened Reorder
  import opened Followers

  datatype Json = Null | Scalar(text: Bytes) | Str(value: Bytes) | Array(items: seq<Json>) | Object(members: seq<Member>)
  datatype Member = Member(key: Bytes, value: Json)

  const OUTBOUNDS: Bytes := "outbounds"

  // ---------- ordered objects ----------

  /** The position of the first member with exactly this key, |members| for none. */
  function Find(members: seq<Member>, key: Bytes): (i: nat)
    ensures i <= |members|
    ensures i < |members| ==> members[i].key == key
    ensures forall j :: 0 <= j < i ==> members[j].key != key
  {
    if members == [] then 0
    else if members[0].key == key then 0
    else 1 + Find(members[1..], key)
  }

  function GetMember(members: seq<Member>, key: Bytes): Option<Json> {
    var i := Find(members, key);
    if i < |members| then Some(members[i].value) else None
  }

  /** Replaces the first member of that key; without one, nothing changes. */
  function SetMember(members: seq<Member>, key: Bytes, value: Json): seq<Member> {
    var i := Find(members, key);
    if i < |members| then members[i := Member(key, value)] else members
  }

  // ---------- reading an outbound ----------

  datatype Node = Node(tag: Bytes, server: Bytes, outbounds: seq<Bytes>)

  /** What json.Unmarshal filled in, and whether it did so without an error. The
      list stands in an array, spare, that keeps what lists before it left there. */
  datatype Decoding = Decoding(node: Node, spare: seq<Bytes>, ok: bool)

  const BLANK := Decoding(Node([], [], []), [], true)

  predicate IsStringOrNull(j: Json) {
    j.Str? || j.Null?
  }

  function Held(spare: seq<Bytes>, k: nat): Bytes {
    if k < |spare| then spare[k] else []
  }

  /** A list decoded over that array: an element that is no string leaves what stands there. */
  function Filled(items: seq<Json>, spare: seq<Bytes>): (s: seq<Bytes>)
    ensures |s| == |items|
    ensures forall k :: 0 <= k < |s| ==> s[k] == if items[k].Str? then items[k].value else Held(spare, k)
  {
    seq(|items|, k requires 0 <= k < |items| => if items[k].Str? then items[k].value else Held(spare, k))
  }

  function Overlaid(values: seq<Bytes>, spare: seq<Bytes>): (s: seq<Bytes>)
    ensures values <= s
    ensures forall k: nat :: Held(s, k) == if k < |values| then values[k] else Held(spare, k)
  {
    if |values| < |spare| then values + spare[|values|..] else values
  }

  /** One member: keys match their field without regard to case; a value of the
      wrong type is an error that leaves the field, but does not stop the rest. */
  function DecodeMember(d: Decoding, m: Member): Decoding {
    var text := m.value;
    if FoldsTo(m.key, "tag") then
      d.(node := if text.Str? then d.node.(tag := text.value) else d.node, ok := d.ok && IsStringOrNull(text))
    else if FoldsTo(m.key, "server") then
      d.(node := if text.Str? then d.node.(server := text.value) else d.node, ok := d.ok && IsStringOrNull(text))
    else if IsOutboundsKey(m.key) then DecodeOutbounds(d, text)
    else d
  }

  /** An empty list or null makes a list anew; any other is decoded over the one there is. */
  function DecodeOutbounds(d: Decoding, j: Json): Decoding {
    match j
    case Null => Decoding(d.node.(outbounds := []), [], d.ok)
    case Array(items) =>
      if items == [] then Decoding(d.node.(outbounds := []), [], d.ok)
      else
        var values := Filled(items, d.spare);
        Decoding(d.node.(outbounds := values), Overlaid(values, d.spare), d.ok && forall e :: e in items ==> IsStringOrNull(e))
    case _ => d.(ok := false)
  }

  predicate IsOutboundsKey(key: Bytes) {
    FoldsTo(key, OUTBOUNDS)
  }

  function DecodeMembers(members: seq<Member>, n: nat): Decoding
    requires n <= |members|
  {
    hide *;
    if n == 0 then BLANK else DecodeMember(DecodeMembers(members, n - 1), members[n - 1])
  }

  function Decode(j: Json): Decoding {
    match j
    case Object(members) => DecodeMembers(members, |members|)
    case Null => BLANK
    case _ => BLANK.(ok := false)
  }

  /** Only outbounds with a server are hosts; the others have no name to shuffle by. */
  function HostName(j: Json): Bytes {
    var n := Decode(j).node;
    if n.server != [] then n.tag else []
  }

  function HostNames(outbounds: seq<Json>): (names: seq<Bytes>)
    ensures |names| == |outbounds|
    ensures forall i :: 0 <= i < |outbounds| ==> names[i] == HostName(outbounds[i])
  {
    seq(|outbounds|, i requires 0 <= i < |outbounds| => HostName(outbounds[i]))
  }

  // ---------- the shuffle ----------

  function ListOf(names: seq<Bytes>): (j: Json)
    ensures j.Array? && |j.items| == |names| && forall i :: 0 <= i < |names| ==> j.items[i] == Str(names[i])
  {
    Array(seq(|names|, i requires 0 <= i < |names| => Str(names[i])))
  }

  /** A selector's list follows the new slots; anything else is left alone. */
  function Followed(j: Json, index: Index): Json {
    var d := Decode(j);
    if !d.ok || !j.Object? || Reordered(d.node.outbounds, index) == d.node.outbounds then j
    else Object(SetMember(j.members, OUTBOUNDS, ListOf(Reordered(d.node.outbounds, index))))
  }

  ghost function NewIndex(groups: Groups, outbounds: seq<Json>, random: Randomness): Index
    requires Proper(random)
  {
    var names := HostNames(outbounds);
    var perm := Shuffled(groups, names, random);
    ShuffleIsWithin(groups, names, random);
    SlotIndex(groups, names, perm, |perm|)
  }

  /** The outbounds after the shuffle: each slot holds its new entry, whose own
      list, if it has one, follows. */
  ghost function ShuffledOutbounds(groups: Groups, outbounds: seq<Json>, random: Randomness): (r: seq<Json>)
    requires Proper(random)
    ensures |r| == |outbounds|
  {
    var perm := Shuffled(groups, HostNames(outbounds), random);
    var index := NewIndex(groups, outbounds, random);
    ShuffleIsWithin(groups, HostNames(outbounds), random);
    seq(|outbounds|, i requires 0 <= i < |outbounds| => Followed(outbounds[perm[i]], index))
  }

  /** Every selector among the outbounds is made to follow the new order. */
  method FollowAll(outbounds: seq<Json>, index: Index) returns (moved: seq<Json>)
    ensures |moved| == |outbounds|
    ensures forall j :: 0 <= j < |moved| ==> moved[j] == Followed(outbounds[j], index)
  {
    hide Decode, Reordered, Find;
    moved := outbounds;
    for i := 0 to |outbounds|
      invariant |moved| == |outbounds|
      invariant forall j :: 0 <= j < |moved| ==> moved[j] == if j < i then Followed(outbounds[j], index) else outbounds[j]
    {
      var j := outbounds[i];
      var d := Decode(j);
      if !d.ok || |d.node.outbounds| == 0 {
        NothingToReorder(index);
        continue;
      }
      var list := new Bytes[|d.node.outbounds|](k requires 0 <= k < |d.node.outbounds| => d.node.outbounds[k]);
      assert list[..] == d.node.outbounds;
      var changed := ReorderNames(list, index);
      if !changed || !j.Object? {
        continue;
      }
      moved := moved[i := Object(SetMember(j.members, OUTBOUNDS, ListOf(list[..])))];
    }
  }

  /** The hosts of a configuration, where it has a list of them. */
  function OutboundsOf(root: Json): Option<seq<Json>> {
    if !root.Object? then None
    else
      match GetMember(root.members, OUTBOUNDS)
      case Some(Array(items)) => Some(items)
      case _ => None
  }

  method ApplySingbox(groups: Groups, random: Randomness, root: Json) returns (out: Json, changed: bool)
    requires Proper(random)
    ensures !changed ==> out == root
    ensures OutboundsOf(root).None? ==> !changed
    ensures OutboundsOf(root).Some? ==>
      var outbounds := OutboundsOf(root).value;
      && (changed <==> Shuffled(groups, HostNames(outbounds), random) != Identity(|outbounds|))
      && (changed ==> out == Object(SetMember(root.members, OUTBOUNDS, Array(ShuffledOutbounds(groups, outbounds, random)))))
  {
    hide Group, Shuffled, Decode, Reordered, Find;
    if OutboundsOf(root).None? {
      return root, false;
    }
    var outbounds := OutboundsOf(root).value;
    var names: seq<Bytes> := [];
    for i := 0 to |outbounds|
      invariant |names| == i && forall j :: 0 <= j < i ==> names[j] == HostName(outbounds[j])
    {
      var n := Decode(outbounds[i]).node;
      names := names + [if n.server != [] then n.tag else []];
    }
    assert names == HostNames(outbounds);
    var found := Permutation(groups, names, random);
    if found.None? {
      return root, false;
    }
    ShuffleIsWithin(groups, names, random);
    var shuffled, newIndex := MoveSlots(groups, names, found.value, outbounds);
    shuffled := FollowAll(shuffled, newIndex);
    assert shuffled == ShuffledOutbounds(groups, outbounds, random);
    out := Object(SetMember(root.members, OUTBOUNDS, Array(shuffled)));
    changed := true;
  }

  lemma NothingToReorder(index: Index)
    ensures Reordered([], index) == []
  {}

  // ---------- what a selector ends up with ----------

  /** The last member read as the list, |members| for none. */
  function LastList(members: seq<Member>, n: nat): (i: int)
    requires n <= |members|
    ensures -1 <= i < n
    ensures i >= 0 ==> IsOutboundsKey(members[i].key)
    ensures forall j :: i < j < n ==> !IsOutboundsKey(members[j].key)
  {
    if n == 0 then -1 else if IsOutboundsKey(members[n - 1].key) then n - 1 else LastList(members, n - 1)
  }

  lemma KeysDiffer(key: Bytes)
    ensures IsOutboundsKey(key) ==> !FoldsTo(key, "tag") && !FoldsTo(key, "server")
    ensures IsOutboundsKey(OUTBOUNDS)
  {
    FoldsToSelf(OUTBOUNDS);
  }

  /** The length of the list after n members, in the absence of errors. */
  function LastLength(members: seq<Member>, n: nat): nat
    requires n <= |members|
  {
    if n == 0 then 0
    else if !IsOutboundsKey(members[n - 1].key) then LastLength(members, n - 1)
    else
      match members[n - 1].value
      case Array(items) => |items|
      case _ => 0
  }

  /** What stands at k after n members: the last string put there since the list was last made anew. */
  function LastAt(members: seq<Member>, n: nat, k: nat): Bytes
    requires n <= |members|
  {
    if n == 0 then []
    else if !IsOutboundsKey(members[n - 1].key) then LastAt(members, n - 1, k)
    else
      match members[n - 1].value
      case Array(items) =>
        if items == [] then []
        else if k < |items| && items[k].Str? then items[k].value
        else LastAt(members, n - 1, k)
      case _ => []
  }

  /** None of the members from `from` to n puts a string at k or makes the list anew. */
  predicate LeftOpen(members: seq<Member>, from: nat, n: nat, k: nat)
    requires n <= |members|
  {
    n <= from ||
    ((IsOutboundsKey(members[n - 1].key) ==>
        var list := members[n - 1].value;
        list.Array? && list.items != [] && !(k < |list.items| && list.items[k].Str?))
     && LeftOpen(members, from, n - 1, k))
  }

  lemma DecodeStep(d: Decoding, m: Member)
    ensures !IsOutboundsKey(m.key) ==>
      DecodeMember(d, m).node.outbounds == d.node.outbounds && DecodeMember(d, m).spare == d.spare
    ensures IsOutboundsKey(m.key) ==> DecodeMember(d, m) == DecodeOutbounds(d, m.value)
    ensures DecodeMember(d, m).ok ==> d.ok
  {
    hide FoldsTo;
    KeysDiffer(m.key);
  }

  /** The list that is read, in closed form. */
  lemma {:induction false} ListIs(members: seq<Member>, n: nat)
    requires n <= |members| && DecodeMembers(members, n).ok
    ensures var d := DecodeMembers(members, n);
      && |d.node.outbounds| == LastLength(members, n) && d.node.outbounds <= d.spare
      && (forall k: nat :: Held(d.spare, k) == LastAt(members, n, k))
      && (forall k :: 0 <= k < |d.node.outbounds| ==> d.node.outbounds[k] == LastAt(members, n, k))
  {
    hide FoldsTo, DecodeMember, IsOutboundsKey, Overlaid, Filled;
    if n > 0 {
      var before := DecodeMembers(members, n - 1);
      DecodeStep(before, members[n - 1]);
      ListIs(members, n - 1);
    }
    PrefixHeld(DecodeMembers(members, n).node.outbounds, DecodeMembers(members, n).spare);
  }

  lemma PrefixHeld(front: seq<Bytes>, spare: seq<Bytes>)
    ensures front <= spare ==> forall k :: 0 <= k < |front| ==> front[k] == Held(spare, k)
  {}

  /** Writing a list of strings over a list member: it is read wherever the
      position is left open behind it, and what was read before everywhere else. */
  lemma {:induction false} ListAfterSet(members: seq<Member>, at: nat, list: seq<Bytes>, n: nat, k: nat)
    requires at < n <= |members| && members[at].key == OUTBOUNDS && k < |list|
    ensures var after := members[at := Member(OUTBOUNDS, ListOf(list))];
      LastAt(after, n, k) == if LeftOpen(members, at + 1, n, k) then list[k] else LastAt(members, n, k)
  {
    hide FoldsTo;
    if n > at + 1 {
      ListAfterSet(members, at, list, n - 1, k);
    } else {
      KeysDiffer(OUTBOUNDS);
    }
  }

  lemma {:induction false} LengthAfterSet(members: seq<Member>, at: nat, list: seq<Bytes>, n: nat)
    requires at < |members| && members[at].key == OUTBOUNDS && n <= |members|
    ensures var after := members[at := Member(OUTBOUNDS, ListOf(list))];
      LastLength(after, n) == if LastList(members, n) == at then |list| else LastLength(members, n)
  {
    hide FoldsTo;
    KeysDiffer(OUTBOUNDS);
    if n > 0 {
      LengthAfterSet(members, at, list, n - 1);
    }
  }

  /** Writing a list of strings over a list member disturbs no other field. */
  lemma {:induction false} DecodeAfterSet(members: seq<Member>, at: nat, list: seq<Bytes>, n: nat)
    requires n <= |members| && at < |members| && members[at].key == OUTBOUNDS
    requires DecodeMembers(members, n).ok
    ensures var after := members[at := Member(OUTBOUNDS, ListOf(list))];
      && DecodeMembers(after, n).ok
      && DecodeMembers(after, n).node.tag == DecodeMembers(members, n).node.tag
      && DecodeMembers(after, n).node.server == DecodeMembers(members, n).node.server
  {
    hide FoldsTo;
    if n > 0 {
      DecodeAfterSet(members, at, list, n - 1);
      KeysDiffer(members[n - 1].key);
    }
  }

  /** Wherever the new list differs from the old one, no later list of the outbound has a say. */
  predicate ReadsBack(j: Json, index: Index)
    requires j.Object?
  {
    var (members, old_) := (j.members, Decode(j).node.outbounds);
    var list := Reordered(old_, index);
    var at := Find(members, OUTBOUNDS);
    at < |members| && forall k :: 0 <= k < |list| && list[k] != old_[k] ==> LeftOpen(members, at + 1, |members|, k)
  }

  lemma SameLists(a: seq<Bytes>, b: seq<Bytes>, c: seq<Bytes>, open: set<nat>)
    requires |a| == |b| == |c|
    requires forall k: nat :: k < |a| ==> a[k] == if k in open then b[k] else c[k]
    ensures a == b <==> forall k: nat :: k < |b| && b[k] != c[k] ==> k in open
  {}

  /** A selector whose list changes reads back as reordered exactly when no later
      list member, whatever the case of its key, speaks for a place that changed;
      its tag and server stay in any case. */
  lemma SelectorFollows(j: Json, index: Index)
    requires j.Object? && Decode(j).ok
    requires Reordered(Decode(j).node.outbounds, index) != Decode(j).node.outbounds
    ensures var (was, now) := (Decode(j), Decode(Followed(j, index)));
      && now.ok && now.node.tag == was.node.tag && now.node.server == was.node.server
      && (now.node.outbounds == Reordered(was.node.outbounds, index) <==> ReadsBack(j, index))
  {
    hide FoldsTo, Reordered, DecodeMember, LastAt, LastLength, LeftOpen, LastList, DecodeMembers, Held;
    var members := j.members;
    var n := |members|;
    var was := Decode(j).node.outbounds;
    var list := Reordered(was, index);
    var at := Find(members, OUTBOUNDS);
    if at < n {
      var after := members[at := Member(OUTBOUNDS, ListOf(list))];
      ListIs(members, n);
      DecodeAfterSet(members, at, list, n);
      ListIs(after, n);
      LengthAfterSet(members, at, list, n);
      var now := DecodeMembers(after, n).node.outbounds;
      var behind := at + 1;
      var open := set k | 0 <= k < |list| && LeftOpen(members, behind, n, k);
      forall k: nat | k < |list| ensures now[k] == if k in open then list[k] else was[k] {
        ListAfterSet(members, at, list, n, k);
      }
      SameLists(now, list, was, open);
    }
  }

  /** In particular when the first member of that name is the last that is read as the list. */
  lemma {:induction false} NothingBehind(members: seq<Member>, at: nat, n: nat, k: nat)
    requires at < n <= |members| && LastList(members, n) <= at
    ensures LeftOpen(members, at + 1, n, k)
  {
    if n > at + 1 {
      NothingBehind(members, at, n - 1, k);
    }
  }

  lemma OneListReadsBack(j: Json, index: Index)
    requires j.Object? && Find(j.members, OUTBOUNDS) < |j.members|
    requires LastList(j.members, |j.members|) == Find(j.members, OUTBOUNDS)
    ensures ReadsBack(j, index)
  {
    hide Find, LastList, Decode, Reordered, LeftOpen;
    var at := Find(j.members, OUTBOUNDS);
    var list, old_ := Reordered(Decode(j).node.outbounds, index), Decode(j).node.outbounds;
    forall k | 0 <= k < |list| && list[k] != old_[k] ensures LeftOpen(j.members, at + 1, |j.members|, k) {
      NothingBehind(j.members, at, |j.members|, k);
    }
  }

  /** Everything but the list stays: other members keep their place and value. */
  lemma SelectorKeepsRest(j: Json, index: Index)
    requires j.Object?
    ensures var f := Followed(j, index);
      && f.Object? && |f.members| == |j.members|
      && (forall i :: 0 <= i < |j.members| && i != Find(j.members, OUTBOUNDS) ==> f.members[i] == j.members[i])
      && (forall i :: 0 <= i < |j.members| ==> f.members[i].key == j.members[i].key)
  {
    hide Decode, Reordered;
  }

  /** After a shuffle every selector whose list changed lists the same members,
      those that are no shuffled host in place, and the hosts in the order of
      the slots they now hold. */
  lemma SelectorsFollow(groups: Groups, outbounds: seq<Json>, random: Randomness, slot: nat)
    requires Proper(random) && slot < |outbounds|
    ensures var perm := Shuffled(groups, HostNames(outbounds), random);
      && Within(perm, |outbounds|)
      && var (was, now) := (outbounds[perm[slot]], ShuffledOutbounds(groups, outbounds, random)[slot]);
         var index := NewIndex(groups, outbounds, random);
         && now == Followed(was, index)
         && (was.Object? && Decode(was).ok && ReadsBack(was, index) ==>
               var (before, after) := (Decode(was).node.outbounds, Decode(now).node.outbounds);
               && multiset(after) == multiset(before) && |after| == |before|
               && (forall i :: 0 <= i < |before| && before[i] !in index ==> after[i] == before[i])
               && (forall i, k :: 0 <= i < k < |before| && before[i] in index && before[k] in index ==>
                     after[i] in index && after[k] in index && index[after[i]] <= index[after[k]]))
  {
    hide Group, Shuffled, Decode, Reordered, ReadsBack;
    ShuffleIsWithin(groups, HostNames(outbounds), random);
    var perm := Shuffled(groups, HostNames(outbounds), random);
    var was := outbounds[perm[slot]];
    var index := NewIndex(groups, outbounds, random);
    if was.Object? && Decode(was).ok && ReadsBack(was, index) {
      var before := Decode(was).node.outbounds;
      if Reordered(before, index) != before {
        SelectorFollows(was, index);
      }
      ReorderedFollows(before, index);
      forall i, k | 0 <= i < k < |before| && before[i] in index && before[k] in index
        ensures var after := Reordered(before, index);
          after[i] in index && after[k] in index && index[after[i]] <= index[after[k]]
      {
        ReorderedBySlot(before, index, i, k);
      }
    }
  }
}
