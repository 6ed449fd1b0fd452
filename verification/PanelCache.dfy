/** The panel cache: info lookups are memoised per short UUID, and concurrent
    lookups of one UUID collapse into a single fetch.
    `Cache` is the mutex-guarded state, one method per lock section; module
    `SingleFlight` interleaves those sections over any number of callers. */
module PanelCache {
  import opened Strings

  /** What the panel answered: an info, ErrNotFound, or any other error. */
  datatype Answer = Found(info: nat) | Missing(reason: nat) | Failed(error: nat)

  datatype Entry = Entry(answer: Answer, expiresAt: int)

  datatype Settings = Settings(ttl: int, negativeTTL: int, maxEntries: int)

  type Entries = map<Bytes, Entry>

  predicate Live(entries: Entries, key: Bytes, now: int) {
    key in entries && now < entries[key].expiresAt
  }

  /** How long store keeps an answer; 0 or less means not at all. */
  function Lifetime(cfg: Settings, answer: Answer): int {
    match answer
    case Found(_) => cfg.ttl
    case Missing(_) => cfg.negativeTTL
    case Failed(_) => 0
  }

  function Unexpired(entries: Entries, now: int): Entries {
    map k | k in entries && now < entries[k].expiresAt :: entries[k]
  }

  predicate Full(cfg: Settings, entries: Entries) {
    cfg.maxEntries > 0 && |entries| >= cfg.maxEntries
  }

  /** The live entries that one eviction may drop: just enough to make room for
      one more. Go's map order decides which. */
  predicate Victims(cfg: Settings, entries: Entries, now: int, victims: set<Bytes>) {
    if !Full(cfg, entries) then victims == {}
    else
      && victims <= Unexpired(entries, now).Keys
      && |victims| == if |Unexpired(entries, now)| < cfg.maxEntries then 0
                      else |Unexpired(entries, now)| - cfg.maxEntries + 1
  }

  function Evicted(cfg: Settings, entries: Entries, now: int, victims: set<Bytes>): Entries {
    if !Full(cfg, entries) then entries else Unexpired(entries, now) - victims
  }

  /** The entries after store: evictAt and now are its two clock readings. */
  function Stored(cfg: Settings, entries: Entries, key: Bytes, answer: Answer,
                  evictAt: int, now: int, victims: set<Bytes>): Entries {
    var ttl := Lifetime(cfg, answer);
    if ttl <= 0 then entries
    else Evicted(cfg, entries, evictAt, victims)[key := Entry(answer, now + ttl)]
  }

  /** What the second lock section decides for a caller. */
  datatype Ticket<+C> = Hit(answer: Answer) | Follow(call: C) | Lead

  function Admit<C>(entries: Entries, inFlight: map<Bytes, C>, key: Bytes, now: int): Ticket<C> {
    if Live(entries, key, now) then Hit(entries[key].answer)
    else if key in inFlight then Follow(inFlight[key])
    else Lead
  }

  class Call {
    var answer: Option<Answer>
    var done: bool
    constructor ()
      ensures !done && answer == None
    {
      done, answer := false, None;
    }
  }

  class Cache {
    const cfg: Settings
    var entries: Entries
    var inFlight: map<Bytes, Call>

    constructor (cfg: Settings)
      ensures this.cfg == cfg && entries == map[] && inFlight == map[]
    {
      this.cfg := cfg;
      entries, inFlight := map[], map[];
    }

    method Lookup(key: Bytes, now: int) returns (answer: Option<Answer>)
      ensures answer == if Live(entries, key, now) then Some(entries[key].answer) else None
    {
      if key !in entries || !(now < entries[key].expiresAt) {
        return None;
      }
      return Some(entries[key].answer);
    }

    /** The second lock section: hit, join the registered call, or register one. */
    method Join(key: Bytes, now: int) returns (ticket: Ticket<Call>, pending: Call?)
      modifies this
      ensures entries == old(entries)
      ensures ticket == old(Admit(entries, inFlight, key, now))
      ensures ticket.Lead? ==>
        && pending != null && fresh(pending) && !pending.done
        && inFlight == old(inFlight)[key := pending]
      ensures !ticket.Lead? ==> inFlight == old(inFlight)
    {
      pending := null;
      if key in entries && now < entries[key].expiresAt {
        return Hit(entries[key].answer), null;
      }
      if key in inFlight {
        return Follow(inFlight[key]), null;
      }
      pending := new Call();
      inFlight := inFlight[key := pending];
      ticket := Lead;
    }

    /** The last lock section of a leader: drop the call, keep the answer. */
    method Publish(key: Bytes, answer: Answer, evictAt: int, now: int) returns (victims: set<Bytes>)
      modifies this
      ensures inFlight == old(inFlight) - {key}
      ensures Lifetime(cfg, answer) > 0 ==> Victims(cfg, old(entries), evictAt, victims)
      ensures entries == Stored(cfg, old(entries), key, answer, evictAt, now, victims)
    {
      victims := {};
      inFlight := inFlight - {key};
      var ttl := 0;
      match answer {
        case Found(_) => ttl := cfg.ttl;
        case Missing(_) => ttl := cfg.negativeTTL;
        case Failed(_) => return;
      }
      if ttl <= 0 {
        return;
      }
      victims := EvictIfNeeded(evictAt);
      entries := entries[key := Entry(answer, now + ttl)];
    }

    /** Drops the expired entries first, then live ones in whatever order the map yields them. */
    method EvictIfNeeded(now: int) returns (victims: set<Bytes>)
      modifies this`entries
      ensures Victims(cfg, old(entries), now, victims)
      ensures entries == Evicted(cfg, old(entries), now, victims)
    {
      victims := {};
      if cfg.maxEntries <= 0 || |entries| < cfg.maxEntries {
        return;
      }
      DropExpired(now);
      victims := DropLive();
    }

    method DropExpired(now: int)
      modifies this`entries
      ensures entries == Unexpired(old(entries), now)
    {
      var pending := entries.Keys;
      while pending != {}
        invariant pending <= old(entries).Keys
        invariant entries == map k | k in old(entries) && (k in pending || now < old(entries)[k].expiresAt) :: old(entries)[k]
        decreases pending
      {
        var k :| k in pending;
        pending := pending - {k};
        if !(now < entries[k].expiresAt) {
          entries := entries - {k};
        }
      }
    }

    method DropLive() returns (victims: set<Bytes>)
      requires cfg.maxEntries > 0
      modifies this`entries
      ensures victims <= old(entries).Keys && entries == old(entries) - victims
      ensures |victims| == if |old(entries)| < cfg.maxEntries then 0 else |old(entries)| - cfg.maxEntries + 1
    {
      victims := {};
      var pending := entries.Keys;
      while pending != {}
        invariant pending == entries.Keys
        invariant victims <= old(entries).Keys && entries == old(entries) - victims
        invariant |entries| + |victims| == |old(entries)|
        invariant victims == {} || |entries| >= cfg.maxEntries - 1
        decreases pending
      {
        if |entries| < cfg.maxEntries {
          break;
        }
        var k :| k in pending;
        DropOne(old(entries), victims, k);
        pending := pending - {k};
        entries := entries - {k};
        victims := victims + {k};
      }
    }
  }

  lemma DropOne(entries: Entries, victims: set<Bytes>, k: Bytes)
    requires victims <= entries.Keys && k in entries - victims
    ensures (entries - victims) - {k} == entries - (victims + {k})
    ensures (entries - victims - {k}).Keys == (entries - victims).Keys - {k}
    ensures |entries - victims - {k}| == |entries - victims| - 1 && |victims + {k}| == |victims| + 1
  {
    CardOfRemoval(entries - victims, {k});
  }

  lemma CardOfRemoval<V>(m: map<Bytes, V>, gone: set<Bytes>)
    requires gone <= m.Keys
    ensures |m - gone| == |m| - |gone|
  {
    assert (m - gone).Keys == m.Keys - gone;
    assert |m.Keys| == |m.Keys - gone| + |m.Keys * gone|;
    assert m.Keys * gone == gone;
  }

  /** With a positive cap, storing never exceeds it. */
  lemma StoredWithinCap(cfg: Settings, entries: Entries, key: Bytes, answer: Answer, evictAt: int, now: int,
          victims: set<Bytes>)
    requires cfg.maxEntries > 0 && |entries| <= cfg.maxEntries
    requires Lifetime(cfg, answer) > 0 ==> Victims(cfg, entries, evictAt, victims)
    ensures |Stored(cfg, entries, key, answer, evictAt, now, victims)| <= cfg.maxEntries
  {
    if Lifetime(cfg, answer) > 0 {
      var room := Evicted(cfg, entries, evictAt, victims);
      if Full(cfg, entries) {
        CardOfRemoval(Unexpired(entries, evictAt), victims);
      }
      assert |room| < cfg.maxEntries;
      var after := room[key := Entry(answer, now + Lifetime(cfg, answer))];
      assert after.Keys == room.Keys + {key};
    }
  }
}
