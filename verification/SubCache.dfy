/** The fallback cache: the last good response per request key, within a byte
    budget. It is read only after the upstream has failed. */
module SubCache {
  import opened Strings
  import opened Headers

  datatype Entry = Entry(status: int, header: Header, body: Bytes, storedAt: int)

  type Entries = map<Bytes, Entry>

  datatype Limits = Limits(ttl: int, maxBytes: int, maxBody: int)

  // ---------- sizes ----------

  /** The sum of a map's values. */
  ghost function Sum(m: map<Bytes, int>): int {
    if m == map[] then 0
    else
      var k :| k in m;
      m[k] + Sum(m - {k})
  }

  lemma {:induction false} SumOfRemoval(m: map<Bytes, int>, k: Bytes)
    requires k in m
    ensures Sum(m) == m[k] + Sum(m - {k})
    decreases |m|
  {
    var c :| c in m && Sum(m) == m[c] + Sum(m - {c});
    if c != k {
      SumOfRemoval(m - {c}, k);
      SumOfRemoval(m - {k}, c);
      assert m - {c} - {k} == m - {k} - {c};
    }
  }

  function Lengths(values: seq<Bytes>): nat {
    if values == [] then 0 else Lengths(values[..|values| - 1]) + |values[|values| - 1]|
  }

  ghost function FieldSizes(h: Header, keys: set<Bytes>): map<Bytes, int>
    requires keys <= h.Keys
  {
    map k | k in keys :: |k| + Lengths(h[k])
  }

  ghost function HeaderSize(h: Header): int {
    Sum(FieldSizes(h, h.Keys))
  }

  ghost function Size(e: Entry): int {
    |e.body| + HeaderSize(e.header)
  }

  ghost function Sizes(entries: Entries): map<Bytes, int> {
    map k | k in entries :: Size(entries[k])
  }

  ghost function Total(entries: Entries): int {
    Sum(Sizes(entries))
  }

  lemma TotalOfRemoval(entries: Entries, k: Bytes)
    requires k in entries
    ensures Total(entries) == Size(entries[k]) + Total(entries - {k})
  {
    hide Sum, Size;
    SumOfRemoval(Sizes(entries), k);
    assert Sizes(entries) - {k} == Sizes(entries - {k});
  }

  lemma TotalOfNone()
    ensures Total(map[]) == 0
  {
    assert Sizes(map[]) == map[];
  }

  lemma TotalOfPlacing(entries: Entries, k: Bytes, e: Entry)
    ensures Total(entries[k := e]) == Total(entries - {k}) + Size(e)
    ensures (entries - {k})[k := e] == entries[k := e]
  {
    hide Total, Size;
    TotalOfRemoval(entries[k := e], k);
    assert entries[k := e] - {k} == entries - {k};
  }

  /** How large an entry is: every header name and value, and the body. */
  method MeasureEntry(e: Entry) returns (n: int)
    ensures n == Size(e)
  {
    n := |e.body|;
    var pending := e.header.Keys;
    while pending != {}
      invariant pending <= e.header.Keys
      invariant n + Sum(FieldSizes(e.header, pending)) == Size(e)
      decreases pending
    {
      var key :| key in pending;
      SumOfRemoval(FieldSizes(e.header, pending), key);
      assert FieldSizes(e.header, pending) - {key} == FieldSizes(e.header, pending - {key});
      pending := pending - {key};
      n := n + |key|;
      var values := e.header[key];
      ghost var before := n;
      for i := 0 to |values|
        invariant n == before + Lengths(values[..i])
      {
        n := n + |values[i]|;
        assert values[..i + 1][..i] == values[..i];
      }
      assert values[..|values|] == values;
    }
  }

  // ---------- eviction ----------

  predicate Expired(limits: Limits, e: Entry, now: int) {
    now - e.storedAt > limits.ttl
  }

  ghost function Minus(entries: Entries, order: seq<Bytes>): Entries {
    entries - set k | k in order
  }

  /** Evicting k is right: the total is over budget, and k is expired, or no
      entry is and none is older. */
  ghost predicate MayEvict(limits: Limits, entries: Entries, k: Bytes, now: int) {
    && k in entries
    && Total(entries) > limits.maxBytes
    && (|| Expired(limits, entries[k], now)
        || (forall j :: j in entries ==> !Expired(limits, entries[j], now) && entries[k].storedAt <= entries[j].storedAt))
  }

  /** Evicting the keys of `order` one by one is right at every step. */
  ghost predicate Evictions(limits: Limits, entries: Entries, order: seq<Bytes>, now: int) {
    forall i :: 0 <= i < |order| ==> MayEvict(limits, Minus(entries, order[..i]), order[i], now)
  }

  lemma MinusOne(entries: Entries, order: seq<Bytes>, k: Bytes)
    ensures Minus(entries, order) - {k} == Minus(entries, order + [k])
  {}

  lemma EvictionsGrow(limits: Limits, entries: Entries, order: seq<Bytes>, k: Bytes, now: int)
    requires Evictions(limits, entries, order, now) && MayEvict(limits, Minus(entries, order), k, now)
    ensures Evictions(limits, entries, order + [k], now)
  {
    var longer := order + [k];
    forall i | 0 <= i < |longer| ensures MayEvict(limits, Minus(entries, longer[..i]), longer[i], now) {
      if i < |order| {
        assert longer[..i] == order[..i];
      } else {
        assert longer[..i] == order;
      }
    }
  }

  /** What a Put leaves: either nothing changed, or the entry replaced its
      predecessor and a right eviction brought the total within budget. */
  ghost predicate PutLeaves(limits: Limits, entries: Entries, key: Bytes, e: Entry, now: int, after: Entries) {
    var placed := entries[key := e];
    if limits.maxBytes <= 0 then after == placed
    else
      exists order ::
        && Evictions(limits, placed, order, now)
        && after == Minus(placed, order)
        && Total(after) <= limits.maxBytes
  }

  // ---------- choosing the oldest ----------

  ghost predicate IsOldest(entries: Entries, key: Bytes) {
    key in entries && forall k :: k in entries ==> entries[key].storedAt <= entries[k].storedAt
  }

  /** An order in which a walk can meet all the keys, each once. */
  ghost predicate Enumerates(order: seq<Bytes>, keys: set<Bytes>) {
    && (forall k :: k in order <==> k in keys)
    && (forall i, j :: 0 <= i < j < |order| ==> order[i] != order[j])
  }

  /** The key a walk ends with, when the empty key also stands for "none so far". */
  ghost function Choice(entries: Entries, order: seq<Bytes>): Bytes
    requires forall k :: k in order ==> k in entries
    decreases |order|
  {
    if order == [] then ""
    else
      var front, key := order[..|order| - 1], order[|order| - 1];
      var chosen := Choice(entries, front);
      if chosen == "" || chosen !in entries || entries[key].storedAt < entries[chosen].storedAt then key else chosen
  }

  lemma ChoiceSnoc(entries: Entries, order: seq<Bytes>, key: Bytes)
    requires (forall k :: k in order ==> k in entries) && key in entries
    ensures Choice(entries, order + [key]) ==
      var chosen := Choice(entries, order);
      if chosen == "" || chosen !in entries || entries[key].storedAt < entries[chosen].storedAt then key else chosen
  {
    assert (order + [key])[..|order|] == order;
  }

  lemma {:induction false} ChoiceIsThere(entries: Entries, order: seq<Bytes>)
    requires forall k :: k in order ==> k in entries
    ensures order != [] ==> Choice(entries, order) in order
    decreases |order|
  {
    if order != [] {
      ChoiceIsThere(entries, order[..|order| - 1]);
    }
  }

  /** Once an oldest key other than the empty one has been met, what is chosen is as old. */
  lemma {:induction false} ChoiceAsOld(entries: Entries, order: seq<Bytes>, oldest: Bytes)
    requires forall k :: k in order ==> k in entries
    requires IsOldest(entries, oldest) && oldest != "" && oldest in order
    ensures var chosen := Choice(entries, order); chosen != "" && IsOldest(entries, chosen)
    decreases |order|
  {
    var front, key := order[..|order| - 1], order[|order| - 1];
    assert order == front + [key];
    ChoiceIsThere(entries, front);
    if oldest in front {
      ChoiceAsOld(entries, front, oldest);
    }
  }

  lemma {:induction false} SomeOldest(entries: Entries, keys: set<Bytes>) returns (oldest: Bytes)
    requires keys != {} && keys <= entries.Keys
    ensures oldest in keys && forall k :: k in keys ==> entries[oldest].storedAt <= entries[k].storedAt
    decreases |keys|
  {
    oldest :| oldest in keys;
    var rest := keys - {oldest};
    if rest != {} {
      var other := SomeOldest(entries, rest);
      if entries[other].storedAt < entries[oldest].storedAt {
        oldest := other;
      }
    }
  }

  lemma ChoiceIsOldest(entries: Entries, order: seq<Bytes>)
    requires entries != map[] && Enumerates(order, entries.Keys)
    requires "" in entries && entries.Keys != {""} ==>
      exists k :: k in entries && k != "" && entries[k].storedAt <= entries[""].storedAt
    ensures IsOldest(entries, Choice(entries, order))
  {
    ChoiceIsThere(entries, order);
    if entries.Keys == {""} {
      return;
    }
    var named := entries.Keys - {""};
    assert named != {} by {
      assert entries.Keys != {};
    }
    var oldest := SomeOldest(entries, named);
    ChoiceAsOld(entries, order, oldest);
  }

  lemma {:induction false} SomeOrder(keys: set<Bytes>) returns (order: seq<Bytes>)
    ensures Enumerates(order, keys)
    decreases |keys|
  {
    if keys == {} {
      order := [];
    } else {
      var key :| key in keys;
      order := SomeOrder(keys - {key});
      order := order + [key];
    }
  }

  lemma {:induction false} EmptyIsPassedOver(entries: Entries, rest: seq<Bytes>)
    requires (forall k :: k in rest ==> k in entries && k != "") && "" in entries && rest != []
    ensures forall k :: k in [""] + rest ==> k in entries
    ensures Choice(entries, [""] + rest) != ""
    decreases |rest|
  {
    var front, key := rest[..|rest| - 1], rest[|rest| - 1];
    var order := [""] + rest;
    assert order[..|order| - 1] == [""] + front && order[|order| - 1] == key;
    assert rest == front + [key];
    if front != [] {
      EmptyIsPassedOver(entries, front);
    }
  }

  /** Whatever the order, the walk finds an oldest entry exactly when no entry
      has the empty key, or it is alone, or another is at least as old. */
  lemma OldestIffNamed(entries: Entries)
    requires entries != map[]
    ensures (forall order :: Enumerates(order, entries.Keys) ==> IsOldest(entries, Choice(entries, order))) <==>
      || "" !in entries || entries.Keys == {""}
      || exists k :: k in entries && k != "" && entries[k].storedAt <= entries[""].storedAt
  {
    var named := "" in entries && entries.Keys != {""} ==>
      exists k :: k in entries && k != "" && entries[k].storedAt <= entries[""].storedAt;
    if named {
      forall order | Enumerates(order, entries.Keys) ensures IsOldest(entries, Choice(entries, order)) {
        ChoiceIsOldest(entries, order);
      }
    } else {
      var rest := SomeOrder(entries.Keys - {""});
      var order := [""] + rest;
      assert entries.Keys == {""} + (entries.Keys - {""});
      assert rest != [];
      EmptyIsPassedOver(entries, rest);
      assert Enumerates(order, entries.Keys);
      ChoiceIsThere(entries, order);
    }
  }

  // ---------- evictions as the walks make them ----------

  /** What the two loops evict: expired entries, and with none left, whatever a walk chooses. */
  ghost predicate MayTake(limits: Limits, entries: Entries, k: Bytes, now: int) {
    && k in entries
    && Total(entries) > limits.maxBytes
    && (|| Expired(limits, entries[k], now)
        || ((forall j :: j in entries ==> !Expired(limits, entries[j], now)) && Chosen(entries, k)))
  }

  ghost predicate Chosen(entries: Entries, k: Bytes) {
    exists order :: Enumerates(order, entries.Keys) && k == Choice(entries, order)
  }

  ghost predicate Walked(limits: Limits, entries: Entries, order: seq<Bytes>, now: int) {
    forall i :: 0 <= i < |order| ==> MayTake(limits, Minus(entries, order[..i]), order[i], now)
  }

  ghost predicate AllExpired(limits: Limits, entries: Entries, order: seq<Bytes>, now: int) {
    forall k :: k in order ==> k in entries && Expired(limits, entries[k], now)
  }

  lemma ExpiredAreWalked(limits: Limits, entries: Entries, order: seq<Bytes>, now: int)
    requires Evictions(limits, entries, order, now) && AllExpired(limits, entries, order, now)
    ensures Walked(limits, entries, order, now)
  {
    hide Total, Expired, Choice;
    forall i | 0 <= i < |order| ensures MayTake(limits, Minus(entries, order[..i]), order[i], now) {
      assert MayEvict(limits, Minus(entries, order[..i]), order[i], now);
      assert order[i] in order;
    }
  }

  lemma WalkTakes(limits: Limits, entries: Entries, walk: seq<Bytes>, now: int)
    requires Total(entries) > limits.maxBytes && entries != map[] && Enumerates(walk, entries.Keys)
    requires forall k :: k in entries ==> !Expired(limits, entries[k], now)
    ensures MayTake(limits, entries, Choice(entries, walk), now)
  {
    hide Total, Expired;
    ChoiceIsThere(entries, walk);
    assert walk != [] by {
      var k :| k in entries.Keys;
      assert k in walk;
    }
  }

  lemma WalkedGrows(limits: Limits, entries: Entries, order: seq<Bytes>, k: Bytes, now: int)
    requires Walked(limits, entries, order, now) && MayTake(limits, Minus(entries, order), k, now)
    ensures Walked(limits, entries, order + [k], now)
  {
    hide MayTake, Minus;
    var longer := order + [k];
    forall i | 0 <= i < |longer| ensures MayTake(limits, Minus(entries, longer[..i]), longer[i], now) {
      if i < |order| {
        assert longer[..i] == order[..i];
      } else {
        assert longer[..i] == order;
      }
    }
  }

  /** Where no key is empty, every eviction of the walks is right. */
  lemma WalkedIsRight(limits: Limits, entries: Entries, order: seq<Bytes>, now: int)
    requires Walked(limits, entries, order, now) && "" !in entries
    ensures Evictions(limits, entries, order, now)
  {
    hide Total, Expired, Choice;
    forall i | 0 <= i < |order| ensures MayEvict(limits, Minus(entries, order[..i]), order[i], now) {
      var left := Minus(entries, order[..i]);
      assert MayTake(limits, left, order[i], now);
      if !Expired(limits, left[order[i]], now) {
        var walk :| Enumerates(walk, left.Keys) && order[i] == Choice(left, walk);
        ChoiceIsOldest(left, walk);
      }
    }
  }

  /** What a Put leaves, for any keys. */
  ghost predicate PutWalks(limits: Limits, entries: Entries, key: Bytes, e: Entry, now: int, after: Entries) {
    var placed := entries[key := e];
    if limits.maxBytes <= 0 then after == placed
    else
      exists order ::
        && Walked(limits, placed, order, now)
        && after == Minus(placed, order)
        && Total(after) <= limits.maxBytes
  }

  lemma PutIsRight(limits: Limits, entries: Entries, key: Bytes, e: Entry, now: int, after: Entries)
    requires PutWalks(limits, entries, key, e, now, after) && "" !in entries && key != ""
    ensures PutLeaves(limits, entries, key, e, now, after)
  {
    hide Walked, Evictions, Total, Minus;
    if limits.maxBytes > 0 {
      var placed := entries[key := e];
      var order :| Walked(limits, placed, order, now) && after == Minus(placed, order) && Total(after) <= limits.maxBytes;
      WalkedIsRight(limits, placed, order, now);
    }
  }

  class Cache {
    const limits: Limits
    var entries: Entries
    var bytes: int

    ghost predicate Valid()
      reads this
    {
      bytes == Total(entries)
    }

    constructor (limits: Limits)
      ensures Valid() && this.limits == limits && entries == map[]
    {
      this.limits := limits;
      entries, bytes := map[], 0;
      new;
      TotalOfNone();
    }

    method Get(key: Bytes, now: int) returns (found: Option<Entry>)
      requires Valid()
      modifies this
      ensures Valid()
      ensures found == if key in old(entries) && !Expired(limits, old(entries)[key], now) then Some(old(entries)[key]) else None
      ensures entries == if key in old(entries) && Expired(limits, old(entries)[key], now) then old(entries) - {key} else old(entries)
    {
      if key !in entries {
        return None;
      }
      if now - entries[key].storedAt > limits.ttl {
        Remove(key);
        return None;
      }
      return Some(entries[key]);
    }

    /** An entry too large to keep, or none, changes nothing. */
    method Put(key: Bytes, entry: Option<Entry>, storedAt: int, now: int)
      requires Valid()
      modifies this
      ensures Valid()
      ensures entry.None? || |entry.value.body| > limits.maxBody ==> entries == old(entries)
      ensures entry.Some? && |entry.value.body| <= limits.maxBody ==>
        && (limits.maxBytes > 0 ==> Total(entries) <= limits.maxBytes)
        && PutWalks(limits, old(entries), key, entry.value.(storedAt := storedAt), now, entries)
        && ("" !in old(entries) && key != "" ==>
              PutLeaves(limits, old(entries), key, entry.value.(storedAt := storedAt), now, entries))
    {
      if entry.None? || |entry.value.body| > limits.maxBody {
        return;
      }
      var e := entry.value.(storedAt := storedAt);
      hide Walked, Evictions, Minus, Total, Size;
      TotalOfPlacing(entries, key, e);
      Remove(key);
      entries := entries[key := e];
      var size := MeasureEntry(e);
      bytes := bytes + size;
      ghost var order := Evict(now);
      assert PutWalks(limits, old(entries), key, e, now, entries);
      if "" !in old(entries) && key != "" {
        PutIsRight(limits, old(entries), key, e, now, entries);
      }
    }

    method Remove(key: Bytes)
      requires Valid()
      modifies this
      ensures Valid() && entries == old(entries) - {key}
    {
      if key in entries {
        TotalOfRemoval(entries, key);
        var size := MeasureEntry(entries[key]);
        bytes := bytes - size;
        entries := entries - {key};
      }
    }

    /** Drops expired entries first, then the oldest, until under budget. The
        order of both walks over the map is arbitrary. The second takes the
        empty key for "none chosen yet", so it can pass over an entry of that
        key: see OldestIffNamed. */
    method Evict(now: int) returns (ghost order: seq<Bytes>)
      requires Valid()
      modifies this
      ensures Valid()
      ensures limits.maxBytes <= 0 ==> entries == old(entries)
      ensures limits.maxBytes > 0 ==> Total(entries) <= limits.maxBytes
      ensures limits.maxBytes > 0 ==> Walked(limits, old(entries), order, now) && entries == Minus(old(entries), order)
      ensures limits.maxBytes > 0 && "" !in old(entries) ==> Evictions(limits, old(entries), order, now)
    {
      hide Walked, Evictions, MayTake, MayEvict, AllExpired, Total, Expired, Choice, Enumerates;
      order := [];
      if limits.maxBytes <= 0 {
        return;
      }
      var within;
      within, order := EvictExpired(now);
      ExpiredAreWalked(limits, old(entries), order, now);
      if "" !in old(entries) {
        WalkedIsRight(limits, old(entries), order, now);
      }
      if within {
        return;
      }
      while bytes > limits.maxBytes && |entries| > 0
        invariant Valid()
        invariant entries.Keys <= old(entries).Keys
        invariant forall k :: k in entries ==> !Expired(limits, entries[k], now)
        invariant Walked(limits, old(entries), order, now)
        invariant entries == Minus(old(entries), order)
        decreases |entries|
      {
        var oldest, walk := Oldest();
        WalkTakes(limits, entries, walk, now);
        MinusOne(old(entries), order, oldest);
        WalkedGrows(limits, old(entries), order, oldest, now);
        order := order + [oldest];
        ghost var before := entries.Keys;
        Remove(oldest);
        assert entries.Keys == before - {oldest} && |before| == |entries.Keys| + 1;
      }
      if |entries| == 0 {
        assert entries == map[];
        TotalOfNone();
      }
      if "" !in old(entries) {
        WalkedIsRight(limits, old(entries), order, now);
      }
    }

    method EvictExpired(now: int) returns (within: bool, ghost order: seq<Bytes>)
      requires Valid()
      modifies this
      ensures Valid()
      ensures entries == Minus(old(entries), order)
      ensures Evictions(limits, old(entries), order, now) && AllExpired(limits, old(entries), order, now)
      ensures within ==> Total(entries) <= limits.maxBytes
      ensures !within ==> forall k :: k in entries ==> !Expired(limits, entries[k], now)
    {
      order := [];
      var pending := entries.Keys;
      while pending != {}
        invariant Valid()
        invariant pending <= entries.Keys
        invariant entries == Minus(old(entries), order)
        invariant forall k :: k in entries && k !in pending ==> !Expired(limits, entries[k], now)
        invariant Evictions(limits, old(entries), order, now) && AllExpired(limits, old(entries), order, now)
        decreases pending
      {
        var key :| key in pending;
        if bytes <= limits.maxBytes {
          return true, order;
        }
        pending := pending - {key};
        if now - entries[key].storedAt > limits.ttl {
          MinusOne(old(entries), order, key);
          EvictionsGrow(limits, old(entries), order, key, now);
          order := order + [key];
          Remove(key);
        }
      }
      within := false;
    }

    /** Some walk over the map, remembering the oldest so far. */
    method Oldest() returns (oldestKey: Bytes, ghost order: seq<Bytes>)
      requires |entries| > 0
      ensures Enumerates(order, entries.Keys) && oldestKey == Choice(entries, order)
      ensures oldestKey in entries
      ensures "" !in entries ==> IsOldest(entries, oldestKey)
    {
      oldestKey := "";
      var oldest := 0;
      order := [];
      var pending := entries.Keys;
      assert pending != {} by { assert |entries.Keys| == |entries|; }
      while pending != {}
        invariant pending <= entries.Keys
        invariant Enumerates(order, entries.Keys - pending)
        invariant oldestKey == Choice(entries, order) && (oldestKey != "" ==> oldestKey in entries && oldest == entries[oldestKey].storedAt)
        decreases |pending|
      {
        var key :| key in pending;
        ChoiceSnoc(entries, order, key);
        pending := pending - {key};
        order := order + [key];
        if oldestKey == "" || entries[key].storedAt < oldest {
          oldestKey, oldest := key, entries[key].storedAt;
        }
      }
      ChoiceIsThere(entries, order);
      if "" !in entries {
        ChoiceIsOldest(entries, order);
      }
    }

    method Stats() returns (count: nat, total: int)
      requires Valid()
      ensures count == |entries| && total == Total(entries)
    {
      count, total := |entries|, bytes;
    }
  }

  // ---------- what a right eviction never does ----------

  /** A live entry goes only after every expired one, and never while a strictly
      older one stays. */
  lemma LiveGoLast(limits: Limits, entries: Entries, order: seq<Bytes>, now: int, i: nat)
    requires Evictions(limits, entries, order, now)
    requires i < |order| && !Expired(limits, entries[order[i]], now)
    ensures forall k :: k in Minus(entries, order) ==>
      !Expired(limits, entries[k], now) && entries[order[i]].storedAt <= entries[k].storedAt
  {
    var then_ := Minus(entries, order[..i]);
    assert MayEvict(limits, then_, order[i], now);
    forall k | k in Minus(entries, order) ensures k in then_ {
      assert forall j :: j in order[..i] ==> j in order;
    }
  }

  /** No eviction happens within budget: before each one the total was too large. */
  lemma OnlyOverBudget(limits: Limits, entries: Entries, order: seq<Bytes>, now: int, i: nat)
    requires Evictions(limits, entries, order, now) && i < |order|
    ensures Total(Minus(entries, order[..i])) > limits.maxBytes
    ensures order[i] in entries && order[i] !in order[..i]
  {
    assert MayEvict(limits, Minus(entries, order[..i]), order[i], now);
  }

  /** An entry that fits the budget and is strictly the newest survives. */
  lemma NewestSurvives(limits: Limits, entries: Entries, order: seq<Bytes>, now: int, k: Bytes)
    requires Evictions(limits, entries, order, now)
    requires k in entries && !Expired(limits, entries[k], now) && Size(entries[k]) <= limits.maxBytes
    requires forall j :: j in entries && j != k ==> entries[j].storedAt < entries[k].storedAt
    ensures k in Minus(entries, order)
  {
    hide Size, Total, Expired;
    if k in order {
      var i :| 0 <= i < |order| && order[i] == k;
      var left := Minus(entries, order[..i]);
      assert MayEvict(limits, left, k, now);
      assert left.Keys == {k};
      assert left == map[k := entries[k]] && left - {k} == map[];
      TotalOfRemoval(left, k);
      TotalOfNone();
    }
  }

  /** So an entry survives its own Put, if the clock stands still meanwhile. */
  lemma PutKeepsNewest(limits: Limits, entries: Entries, key: Bytes, e: Entry, after: Entries)
    requires PutLeaves(limits, entries, key, e, e.storedAt, after)
    requires limits.ttl >= 0 && Size(e) <= limits.maxBytes
    requires forall j :: j in entries && j != key ==> entries[j].storedAt < e.storedAt
    ensures key in after && after[key] == e
  {
    if limits.maxBytes > 0 {
      var placed := entries[key := e];
      var order :| Evictions(limits, placed, order, e.storedAt) && after == Minus(placed, order);
      NewestSurvives(limits, placed, order, e.storedAt, key);
    }
  }

  // ---------- the key ----------

  const NUL: byte := '\0'

  function Key(shortUUID: Bytes, clientType: Bytes, userAgent: Bytes, acceptEncoding: Bytes): Bytes {
    shortUUID + [NUL] + clientType + [NUL] + userAgent + [NUL] + acceptEncoding
  }

  /** The last separator of a key is unambiguous when nothing after it holds one. */
  lemma LastPart(a: Bytes, b: Bytes, a': Bytes, b': Bytes)
    requires NUL !in b && NUL !in b'
    requires a + [NUL] + b == a' + [NUL] + b'
    ensures a == a' && b == b'
  {
    var s := a + [NUL] + b;
    assert s[|a|] == NUL && s[|a'|] == NUL;
    assert forall i :: |a| < i < |s| ==> s[i] == b[i - |a| - 1];
    assert forall i :: |a'| < i < |s| ==> s[i] == b'[i - |a'| - 1];
    assert s[..|a|] == a && s[..|a'|] == a';
    assert s[|a| + 1..] == b && s[|a'| + 1..] == b';
  }

  /** Keys are told apart, and never empty, as long as the last three parts hold no NUL. */
  lemma KeyInjective(u: Bytes, c: Bytes, a: Bytes, e: Bytes, u': Bytes, c': Bytes, a': Bytes, e': Bytes)
    requires NUL !in c && NUL !in a && NUL !in e && NUL !in c' && NUL !in a' && NUL !in e'
    requires Key(u, c, a, e) == Key(u', c', a', e')
    ensures u == u' && c == c' && a == a' && e == e'
    ensures Key(u, c, a, e) != ""
  {
    LastPart(u + [NUL] + c + [NUL] + a, e, u' + [NUL] + c' + [NUL] + a', e');
    LastPart(u + [NUL] + c, a, u' + [NUL] + c', a');
    LastPart(u, c, u', c');
  }
}
