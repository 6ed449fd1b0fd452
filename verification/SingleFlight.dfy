/** Any number of callers of the panel cache, interleaved at its lock sections.
    Each step below is one section, or one of the unlocked actions between them:
    the fetch, the close of the call's channel, the waking of a waiter. */
module SingleFlight {
  import opened Strings
  import opened PanelCache

  datatype Phase =
    | Started                          // nothing done yet
    | Missed                           // the first lookup found no live entry
    | Waiting(call: nat)               // parked on another caller's channel
    | Fetching(call: nat)              // registered, asking the panel
    | Fetched(call: nat)               // the panel has answered
    | Published(call: nat)             // unregistered and stored, channel still open
    | Done(answer: Answer, call: nat)  // returned what `call` fetched
    | Cancelled                        // gave up waiting

  datatype Caller = Caller(key: Bytes, phase: Phase)

  /** A call and, for the record, who leads it and when it was published. */
  datatype CallRecord = CallRecord(key: Bytes, leader: nat, answer: Option<Answer>, publishedAt: Option<int>, closed: bool)

  /** `writtenBy` records which call an entry came from; nothing reads it but the proofs. */
  datatype State = State(
    callers: map<nat, Caller>,
    calls: map<nat, CallRecord>,
    entries: Entries,
    writtenBy: map<Bytes, nat>,
    inFlight: map<Bytes, nat>,
    now: int)

  /** Every step names the caller that takes it and what the environment chose:
      clock readings, the panel's answer, the entries an eviction drops. */
  datatype Step =
    | Begin(caller: nat, key: Bytes)
    | Look(caller: nat, at: int)
    | Enter(caller: nat, at: int, newCall: nat)
    | Receive(caller: nat, answer: Answer)
    | Publish(caller: nat, evictAt: int, at: int, victims: set<Bytes>)
    | Close(caller: nat)
    | Wake(caller: nat)
    | Cancel(caller: nat)

  function Initial(now: int): State {
    State(map[], map[], map[], map[], map[], now)
  }

  ghost predicate Enabled(cfg: Settings, s: State, step: Step) {
    if step.Begin? then step.caller !in s.callers
    else
      && step.caller in s.callers
      && var phase := s.callers[step.caller].phase;
         match step
         case Look(_, at) => phase.Started? && s.now <= at
         case Enter(_, at, newCall) => phase.Missed? && s.now <= at && newCall !in s.calls
         case Receive(_, _) => phase.Fetching? && phase.call in s.calls
         case Publish(_, evictAt, at, victims) =>
           && phase.Fetched? && s.now <= evictAt <= at
           && phase.call in s.calls && s.calls[phase.call].answer.Some?
           && (Lifetime(cfg, s.calls[phase.call].answer.value) > 0 ==> Victims(cfg, s.entries, evictAt, victims))
         case Close(_) => phase.Published? && phase.call in s.calls && s.calls[phase.call].answer.Some?
         case Wake(_) => phase.Waiting? && phase.call in s.calls && s.calls[phase.call].closed && s.calls[phase.call].answer.Some?
         case Cancel(_) => phase.Waiting?
  }

  ghost function Moved(s: State, i: nat, phase: Phase): State
    requires i in s.callers
  {
    s.(callers := s.callers[i := s.callers[i].(phase := phase)])
  }

  ghost function Next(cfg: Settings, s: State, step: Step): State
    requires Enabled(cfg, s, step)
  {
    if step.Begin? then s.(callers := s.callers[step.caller := Caller(step.key, Started)])
    else
      var i := step.caller;
      var key := s.callers[i].key;
      match step
      case Look(_, at) =>
        var s' := s.(now := at);
        if Live(s.entries, key, at) then Moved(s', i, Returned(s, key)) else Moved(s', i, Missed)
      case Enter(_, at, newCall) =>
        var s' := s.(now := at);
        (match Admit(s.entries, s.inFlight, key, at)
         case Hit(_) => Moved(s', i, Returned(s, key))
         case Follow(c) => Moved(s', i, Waiting(c))
         case Lead =>
           Moved(s', i, Fetching(newCall)).(
             inFlight := s.inFlight[key := newCall],
             calls := s.calls[newCall := CallRecord(key, i, None, None, false)]))
      case Receive(_, answer) =>
        var c := s.callers[i].phase.call;
        Moved(s, i, Fetched(c)).(calls := s.calls[c := s.calls[c].(answer := Some(answer))])
      case Publish(_, evictAt, at, victims) =>
        var c := s.callers[i].phase.call;
        var after := Stored(cfg, s.entries, key, s.calls[c].answer.value, evictAt, at, victims);
        Moved(s, i, Published(c)).(
          now := at,
          inFlight := s.inFlight - {key},
          entries := after,
          writtenBy := if Lifetime(cfg, s.calls[c].answer.value) <= 0 then s.writtenBy else s.writtenBy[key := c],
          calls := s.calls[c := s.calls[c].(publishedAt := Some(at))])
      case Close(_) =>
        var c := s.callers[i].phase.call;
        Moved(s, i, Done(s.calls[c].answer.value, c)).(calls := s.calls[c := s.calls[c].(closed := true)])
      case Wake(_) =>
        var c := s.callers[i].phase.call;
        Moved(s, i, Done(s.calls[c].answer.value, c))
      case Cancel(_) => Moved(s, i, Cancelled)
  }

  /** A caller that hits an entry returns its answer; the record traces it to a call. */
  ghost function Returned(s: State, key: Bytes): Phase
    requires key in s.entries
  {
    Done(s.entries[key].answer, if key in s.writtenBy then s.writtenBy[key] else 0)
  }

  ghost predicate ValidRun(cfg: Settings, s: State, run: seq<Step>)
    decreases |run|
  {
    run == [] || (Enabled(cfg, s, run[0]) && ValidRun(cfg, Next(cfg, s, run[0]), run[1..]))
  }

  ghost function After(cfg: Settings, s: State, run: seq<Step>): State
    requires ValidRun(cfg, s, run)
    decreases |run|
  {
    if run == [] then s else After(cfg, Next(cfg, s, run[0]), run[1..])
  }

  // ---------- what every step keeps ----------

  type Callers = map<nat, Caller>
  type Calls = map<nat, CallRecord>

  /** How far the leader of call c has come. */
  ghost predicate LeaderAt(phase: Phase, c: nat, r: CallRecord) {
    match phase
    case Fetching(d) => d == c && r.answer.None? && r.publishedAt.None? && !r.closed
    case Fetched(d) => d == c && r.answer.Some? && r.publishedAt.None? && !r.closed
    case Published(d) => d == c && r.answer.Some? && r.publishedAt.Some? && !r.closed
    case Done(a, d) => d == c && r.answer == Some(a) && r.publishedAt.Some? && r.closed
    case _ => false
  }

  /** Call c has one leader, a caller for its key, at the stage the record shows. */
  ghost predicate Led(callers: Callers, c: nat, r: CallRecord) {
    && r.leader in callers
    && callers[r.leader].key == r.key
    && LeaderAt(callers[r.leader].phase, c, r)
  }

  ghost predicate CallsLed(callers: Callers, calls: Calls) {
    forall c :: c in calls ==> Led(callers, c, calls[c])
  }

  ghost predicate Leading(phase: Phase) {
    phase.Fetching? || phase.Fetched? || phase.Published?
  }

  ghost predicate CallerSound(calls: Calls, i: nat, caller: Caller) {
    match caller.phase
    case Waiting(c) => c in calls && calls[c].key == caller.key
    case Done(a, c) => c in calls && calls[c].key == caller.key && calls[c].answer == Some(a)
    case phase => Leading(phase) ==> phase.call in calls && calls[phase.call].leader == i
  }

  ghost predicate CallersSound(callers: Callers, calls: Calls) {
    forall i :: i in callers ==> CallerSound(calls, i, callers[i])
  }

  /** The registered calls are exactly the unpublished ones, at most one a key,
      and no live entry exists for a key while its call is registered. */
  ghost predicate Registered(calls: Calls, inFlight: map<Bytes, nat>, entries: Entries, now: int) {
    && (forall k :: k in inFlight ==>
         && inFlight[k] in calls && calls[inFlight[k]].key == k && calls[inFlight[k]].publishedAt.None?
         && !Live(entries, k, now))
    && (forall c :: c in calls && calls[c].publishedAt.None? ==>
         calls[c].key in inFlight && inFlight[calls[c].key] == c)
  }

  /** The entry came from call r, for its own key, and lives as long as its kind of answer may. */
  ghost predicate Backed(cfg: Settings, key: Bytes, e: Entry, r: CallRecord) {
    && r.key == key && r.answer == Some(e.answer) && !e.answer.Failed?
    && Lifetime(cfg, e.answer) > 0
    && r.publishedAt.Some? && e.expiresAt == r.publishedAt.value + Lifetime(cfg, e.answer)
  }

  ghost predicate EntriesBacked(cfg: Settings, calls: Calls, entries: Entries, writtenBy: map<Bytes, nat>) {
    forall k :: k in entries ==>
      k in writtenBy && writtenBy[k] in calls && Backed(cfg, k, entries[k], calls[writtenBy[k]])
  }

  ghost predicate WithinCap(cfg: Settings, entries: Entries) {
    cfg.maxEntries > 0 ==> |entries| <= cfg.maxEntries
  }

  ghost predicate Inv(cfg: Settings, s: State) {
    && CallsLed(s.callers, s.calls)
    && CallersSound(s.callers, s.calls)
    && Registered(s.calls, s.inFlight, s.entries, s.now)
    && EntriesBacked(cfg, s.calls, s.entries, s.writtenBy)
    && WithinCap(cfg, s.entries)
  }

  /** A caller that leads nothing may move to any phase that is sound and leads nothing. */
  lemma FollowerMoves(callers: Callers, calls: Calls, i: nat, to: Caller)
    requires CallsLed(callers, calls) && CallersSound(callers, calls)
    requires i in callers ==> callers[i].phase.Started? || callers[i].phase.Missed? || callers[i].phase.Waiting?
    requires !Leading(to.phase) && CallerSound(calls, i, to)
    ensures CallsLed(callers[i := to], calls) && CallersSound(callers[i := to], calls)
  {
    forall c | c in calls ensures Led(callers[i := to], c, calls[c]) {
      assert Led(callers, c, calls[c]);
    }
    var callers' := callers[i := to];
    forall j | j in callers' ensures CallerSound(calls, j, callers'[j]) {
      assert j != i ==> CallerSound(calls, j, callers[j]);
    }
  }

  /** A leader and the record of its call move on together; an answer, once there, stays. */
  lemma LeaderMoves(callers: Callers, calls: Calls, i: nat, c: nat, phase: Phase, r: CallRecord)
    requires CallsLed(callers, calls) && CallersSound(callers, calls)
    requires i in callers && Leading(callers[i].phase) && callers[i].phase.call == c && c in calls
    requires r.key == calls[c].key && r.leader == calls[c].leader && LeaderAt(phase, c, r)
    requires calls[c].answer.Some? ==> r.answer == calls[c].answer
    ensures var callers', calls' := callers[i := callers[i].(phase := phase)], calls[c := r];
            CallsLed(callers', calls') && CallersSound(callers', calls')
  {
    var callers', calls' := callers[i := callers[i].(phase := phase)], calls[c := r];
    assert CallerSound(calls, i, callers[i]);
    assert Led(callers, c, calls[c]);
    forall d | d in calls' ensures Led(callers', d, calls'[d]) {
      assert d in calls && Led(callers, d, calls[d]);
    }
    forall j | j in callers' ensures CallerSound(calls', j, callers'[j]) {
      assert CallerSound(calls, j, callers[j]);
    }
  }

  /** Registering a new call. */
  lemma LeaderRegisters(callers: Callers, calls: Calls, i: nat, c: nat)
    requires CallsLed(callers, calls) && CallersSound(callers, calls)
    requires i in callers && callers[i].phase.Missed? && c !in calls
    ensures var callers' := callers[i := callers[i].(phase := Fetching(c))];
            var calls' := calls[c := CallRecord(callers[i].key, i, None, None, false)];
            CallsLed(callers', calls') && CallersSound(callers', calls')
  {
    var callers' := callers[i := callers[i].(phase := Fetching(c))];
    var calls' := calls[c := CallRecord(callers[i].key, i, None, None, false)];
    forall d | d in calls' ensures Led(callers', d, calls'[d]) {
      assert d != c ==> Led(callers, d, calls[d]);
    }
    forall j | j in callers' ensures CallerSound(calls', j, callers'[j]) {
      assert CallerSound(calls, j, callers[j]);
    }
  }

  lemma TimePasses(calls: Calls, inFlight: map<Bytes, nat>, entries: Entries, now: int, later: int)
    requires Registered(calls, inFlight, entries, now) && now <= later
    ensures Registered(calls, inFlight, entries, later)
  {}

  /** Entries and registrations do not depend on a call's answer while it is unpublished, nor on its closing. */
  lemma RecordMoves(cfg: Settings, s: State, c: nat, r: CallRecord)
    requires Inv(cfg, s) && c in s.calls
    requires r.key == s.calls[c].key && r.publishedAt == s.calls[c].publishedAt
    requires r.publishedAt.Some? ==> r.answer == s.calls[c].answer
    ensures Registered(s.calls[c := r], s.inFlight, s.entries, s.now)
    ensures EntriesBacked(cfg, s.calls[c := r], s.entries, s.writtenBy)
  {
    hide Live;
    var calls' := s.calls[c := r];
    forall k | k in s.entries
      ensures k in s.writtenBy && s.writtenBy[k] in calls' && Backed(cfg, k, s.entries[k], calls'[s.writtenBy[k]])
    {
      assert Backed(cfg, k, s.entries[k], s.calls[s.writtenBy[k]]);
    }
  }

  lemma PublishUnregisters(s: State, i: nat, r: CallRecord, after: Entries, at: int)
    requires CallsLed(s.callers, s.calls) && CallersSound(s.callers, s.calls)
    requires Registered(s.calls, s.inFlight, s.entries, s.now) && s.now <= at
    requires i in s.callers && s.callers[i].phase.Fetched?
    requires r.key == s.callers[i].key && r.publishedAt.Some?
    requires forall k :: k in after && k != r.key ==> k in s.entries && after[k] == s.entries[k]
    ensures Registered(s.calls[s.callers[i].phase.call := r], s.inFlight - {r.key}, after, at)
  {
    var c := s.callers[i].phase.call;
    CallerIsSound(s, i);
    assert s.inFlight[r.key] == c;
    var inFlight' := s.inFlight - {r.key};
    forall k | k in inFlight' ensures !Live(after, k, at) && inFlight'[k] != c {
      assert k in s.inFlight && !Live(s.entries, k, s.now);
    }
  }

  lemma PublishBacks(cfg: Settings, s: State, c: nat, r: CallRecord, after: Entries, writtenBy: map<Bytes, nat>)
    requires EntriesBacked(cfg, s.calls, s.entries, s.writtenBy)
    requires c in s.calls && s.calls[c].publishedAt.None?
    requires forall k :: k in after ==>
      if k == r.key && Lifetime(cfg, r.answer.GetOr(Failed(0))) > 0
      then k in writtenBy && writtenBy[k] == c && Backed(cfg, k, after[k], r)
      else k in s.entries && after[k] == s.entries[k] && (k in s.writtenBy ==> k in writtenBy && writtenBy[k] == s.writtenBy[k])
    ensures EntriesBacked(cfg, s.calls[c := r], after, writtenBy)
  {
    var calls' := s.calls[c := r];
    forall k | k in after
      ensures k in writtenBy && writtenBy[k] in calls' && Backed(cfg, k, after[k], calls'[writtenBy[k]])
    {
      if k in s.entries {
        assert Backed(cfg, k, s.entries[k], s.calls[s.writtenBy[k]]);
      }
    }
  }

  /** A publication adds its own entry, if its answer is kept at all, and otherwise only removes some. */
  lemma StoredOnly(cfg: Settings, entries: Entries, key: Bytes, answer: Answer, evictAt: int, at: int,
          victims: set<Bytes>)
    ensures var after := Stored(cfg, entries, key, answer, evictAt, at, victims);
      forall k :: k in after ==>
        if k == key && Lifetime(cfg, answer) > 0 then after[k] == Entry(answer, at + Lifetime(cfg, answer))
        else k in entries && after[k] == entries[k]
  {
    hide Full, Lifetime;
  }

  lemma PublishBacksNew(cfg: Settings, s: State, c: nat, r: CallRecord, after: Entries, writtenBy: map<Bytes, nat>,
          answer: Answer, at: int)
    requires EntriesBacked(cfg, s.calls, s.entries, s.writtenBy)
    requires c in s.calls && s.calls[c].publishedAt.None?
    requires r.answer == Some(answer) && r.publishedAt == Some(at)
    requires writtenBy == if Lifetime(cfg, answer) <= 0 then s.writtenBy else s.writtenBy[r.key := c]
    requires forall k :: k in after ==>
      if k == r.key && Lifetime(cfg, answer) > 0 then after[k] == Entry(answer, at + Lifetime(cfg, answer))
      else k in s.entries && after[k] == s.entries[k]
    ensures EntriesBacked(cfg, s.calls[c := r], after, writtenBy)
  {
    hide EntriesBacked;
    PublishBacks(cfg, s, c, r, after, writtenBy);
  }

  lemma PublishKeeps(cfg: Settings, s: State, i: nat, evictAt: int, at: int, victims: set<Bytes>)
    requires Inv(cfg, s) && Enabled(cfg, s, Publish(i, evictAt, at, victims))
    ensures Inv(cfg, Next(cfg, s, Publish(i, evictAt, at, victims)))
  {
    hide CallsLed, CallersSound, Registered, EntriesBacked, Victims, Live, Stored, Lifetime;
    var s' := Next(cfg, s, Publish(i, evictAt, at, victims));
    var c := s.callers[i].phase.call;
    var answer := s.calls[c].answer.value;
    var r := s.calls[c].(publishedAt := Some(at));
    CallerIsSound(s, i);
    StoredOnly(cfg, s.entries, r.key, answer, evictAt, at, victims);
    if cfg.maxEntries > 0 {
      StoredWithinCap(cfg, s.entries, r.key, answer, evictAt, at, victims);
    }
    LeaderMoves(s.callers, s.calls, i, c, Published(c), r);
    PublishUnregisters(s, i, r, s'.entries, at);
    PublishBacksNew(cfg, s, c, r, s'.entries, s'.writtenBy, answer, at);
  }

  lemma RegisterNew(cfg: Settings, s: State, r: CallRecord, newCall: nat, at: int)
    requires Registered(s.calls, s.inFlight, s.entries, at)
    requires EntriesBacked(cfg, s.calls, s.entries, s.writtenBy)
    requires newCall !in s.calls && r.publishedAt.None? && r.key !in s.inFlight && !Live(s.entries, r.key, at)
    ensures Registered(s.calls[newCall := r], s.inFlight[r.key := newCall], s.entries, at)
    ensures EntriesBacked(cfg, s.calls[newCall := r], s.entries, s.writtenBy)
  {
    hide Live;
    var calls' := s.calls[newCall := r];
    forall k | k in s.entries
      ensures k in s.writtenBy && s.writtenBy[k] in calls' && Backed(cfg, k, s.entries[k], calls'[s.writtenBy[k]])
    {
      assert Backed(cfg, k, s.entries[k], s.calls[s.writtenBy[k]]);
    }
  }

  lemma EnterKeeps(cfg: Settings, s: State, i: nat, at: int, newCall: nat)
    requires Inv(cfg, s) && Enabled(cfg, s, Enter(i, at, newCall))
    ensures Inv(cfg, Next(cfg, s, Enter(i, at, newCall)))
  {
    hide CallsLed, CallersSound, Registered, EntriesBacked;
    var key := s.callers[i].key;
    TimePasses(s.calls, s.inFlight, s.entries, s.now, at);
    match Admit(s.entries, s.inFlight, key, at)
    case Hit(_) =>
      EntryIsBacked(cfg, s, key);
      FollowerMoves(s.callers, s.calls, i, s.callers[i].(phase := Returned(s, key)));
    case Follow(c) =>
      CallIsRegistered(s, key);
      FollowerMoves(s.callers, s.calls, i, s.callers[i].(phase := Waiting(c)));
    case Lead =>
      LeaderRegisters(s.callers, s.calls, i, newCall);
      RegisterNew(cfg, s, CallRecord(key, i, None, None, false), newCall, at);
  }

  lemma CallIsRegistered(s: State, key: Bytes)
    requires Registered(s.calls, s.inFlight, s.entries, s.now) && key in s.inFlight
    ensures s.inFlight[key] in s.calls && s.calls[s.inFlight[key]].key == key
  {}

  /** Every step of every caller keeps the invariant. */
  lemma StepKeeps(cfg: Settings, s: State, step: Step)
    requires Inv(cfg, s) && Enabled(cfg, s, step)
    ensures Inv(cfg, Next(cfg, s, step))
  {
    hide CallsLed, CallersSound, Registered, EntriesBacked;
    var i := step.caller;
    match step
    case Begin(_, key) =>
      FollowerMoves(s.callers, s.calls, i, Caller(key, Started));
    case Look(_, at) =>
      TimePasses(s.calls, s.inFlight, s.entries, s.now, at);
      var key := s.callers[i].key;
      if Live(s.entries, key, at) {
        EntryIsBacked(cfg, s, key);
        FollowerMoves(s.callers, s.calls, i, s.callers[i].(phase := Returned(s, key)));
      } else {
        FollowerMoves(s.callers, s.calls, i, s.callers[i].(phase := Missed));
      }
    case Enter(_, at, newCall) => EnterKeeps(cfg, s, i, at, newCall);
    case Receive(_, answer) =>
      CallerIsSound(s, i);
      var c := s.callers[i].phase.call;
      RecordMoves(cfg, s, c, s.calls[c].(answer := Some(answer)));
      LeaderMoves(s.callers, s.calls, i, c, Fetched(c), s.calls[c].(answer := Some(answer)));
    case Publish(_, evictAt, at, victims) => PublishKeeps(cfg, s, i, evictAt, at, victims);
    case Close(_) =>
      CallerIsSound(s, i);
      var c := s.callers[i].phase.call;
      RecordMoves(cfg, s, c, s.calls[c].(closed := true));
      LeaderMoves(s.callers, s.calls, i, c, Done(s.calls[c].answer.value, c), s.calls[c].(closed := true));
    case Wake(_) =>
      CallerIsSound(s, i);
      var c := s.callers[i].phase.call;
      FollowerMoves(s.callers, s.calls, i, s.callers[i].(phase := Done(s.calls[c].answer.value, c)));
    case Cancel(_) =>
      FollowerMoves(s.callers, s.calls, i, s.callers[i].(phase := Cancelled));
  }

  lemma EntryIsBacked(cfg: Settings, s: State, key: Bytes)
    requires Inv(cfg, s) && key in s.entries
    ensures key in s.writtenBy && s.writtenBy[key] in s.calls && Backed(cfg, key, s.entries[key], s.calls[s.writtenBy[key]])
  {}

  /** A caller's own record, and, when it leads, that of its call. */
  lemma CallerIsSound(s: State, i: nat)
    requires CallsLed(s.callers, s.calls) && CallersSound(s.callers, s.calls) && i in s.callers
    ensures CallerSound(s.calls, i, s.callers[i])
    ensures Leading(s.callers[i].phase) ==>
      var c := s.callers[i].phase.call; c in s.calls && Led(s.callers, c, s.calls[c]) && s.calls[c].leader == i
  {}

  /** Every reachable state satisfies the invariant. */
  lemma {:induction false} RunKeeps(cfg: Settings, s: State, run: seq<Step>)
    requires Inv(cfg, s) && ValidRun(cfg, s, run)
    ensures Inv(cfg, After(cfg, s, run))
    decreases |run|
  {
    hide Inv, Next, Enabled;
    if run != [] {
      StepKeeps(cfg, s, run[0]);
      RunKeeps(cfg, Next(cfg, s, run[0]), run[1..]);
    }
  }

  lemma ReachableInv(cfg: Settings, start: int, run: seq<Step>)
    requires ValidRun(cfg, Initial(start), run)
    ensures Inv(cfg, After(cfg, Initial(start), run))
  {
    RunKeeps(cfg, Initial(start), run);
  }

  // ---------- one fetch a key ----------

  ghost predicate Unpublished(phase: Phase) {
    phase.Fetching? || phase.Fetched?
  }

  /** In no interleaving do two unpublished fetches for one key overlap; the one
      there is, is the registered one, so a leader's delete removes its own call. */
  lemma OneFetchPerKey(cfg: Settings, start: int, run: seq<Step>, i: nat, j: nat)
    requires ValidRun(cfg, Initial(start), run)
    requires var s := After(cfg, Initial(start), run);
      && i in s.callers && j in s.callers && s.callers[i].key == s.callers[j].key
      && Unpublished(s.callers[i].phase) && Unpublished(s.callers[j].phase)
    ensures i == j
    ensures var s := After(cfg, Initial(start), run);
      && s.callers[i].key in s.inFlight
      && s.inFlight[s.callers[i].key] == s.callers[i].phase.call
      && s.callers[i].phase.call in s.calls && s.calls[s.callers[i].phase.call].leader == i
  {
    ReachableInv(cfg, start, run);
    var s := After(cfg, Initial(start), run);
    CallerIsSound(s, i);
    CallerIsSound(s, j);
  }

  /** ... and conversely every registered call has such a caller, exactly one. */
  lemma RegisteredIsLed(cfg: Settings, start: int, run: seq<Step>, key: Bytes)
    requires ValidRun(cfg, Initial(start), run)
    requires key in After(cfg, Initial(start), run).inFlight
    ensures var s := After(cfg, Initial(start), run);
      exists i :: i in s.callers && s.callers[i].key == key && Unpublished(s.callers[i].phase) &&
                  s.callers[i].phase.call == s.inFlight[key]
  {
    ReachableInv(cfg, start, run);
    var s := After(cfg, Initial(start), run);
    assert Led(s.callers, s.inFlight[key], s.calls[s.inFlight[key]]);
  }

  // ---------- what waiters get ----------

  /** What the rest of a run may do to a call: a call once closed is final, and
      an answer once there stays. */
  ghost predicate Continues(r: CallRecord, r': CallRecord) {
    && r'.key == r.key && r'.leader == r.leader
    && (r.answer.Some? ==> r'.answer == r.answer)
    && (r.closed ==> r' == r)
  }

  lemma StepContinues(cfg: Settings, s: State, step: Step, c: nat)
    requires Inv(cfg, s) && Enabled(cfg, s, step) && c in s.calls
    ensures c in Next(cfg, s, step).calls && Continues(s.calls[c], Next(cfg, s, step).calls[c])
  {
    hide CallsLed, CallersSound, Registered, EntriesBacked, Stored, Live;
    if !step.Begin? {
      CallerIsSound(s, step.caller);
    }
  }

  lemma {:induction false} CallContinues(cfg: Settings, s: State, run: seq<Step>, c: nat)
    requires Inv(cfg, s) && ValidRun(cfg, s, run) && c in s.calls
    ensures c in After(cfg, s, run).calls && Continues(s.calls[c], After(cfg, s, run).calls[c])
    decreases |run|
  {
    hide Inv, Enabled, Next;
    if run != [] {
      StepContinues(cfg, s, run[0], c);
      StepKeeps(cfg, s, run[0]);
      CallContinues(cfg, Next(cfg, s, run[0]), run[1..], c);
    }
  }

  /** A waiter on call c has given up, still waits, or returned what c's leader fetched. */
  ghost predicate WaiterOf(s: State, i: nat, key: Bytes, c: nat) {
    && i in s.callers && s.callers[i].key == key && c in s.calls && s.calls[c].key == key
    && match s.callers[i].phase
       case Waiting(d) => d == c
       case Cancelled => true
       case Done(answer, d) => d == c && s.calls[c].closed && s.calls[c].answer == Some(answer)
       case _ => false
  }

  lemma StepKeepsWaiter(cfg: Settings, s: State, step: Step, i: nat, key: Bytes, c: nat)
    requires Inv(cfg, s) && Enabled(cfg, s, step) && WaiterOf(s, i, key, c)
    ensures WaiterOf(Next(cfg, s, step), i, key, c)
  {
    hide CallsLed, CallersSound, Registered, EntriesBacked, Stored, Live;
    StepContinues(cfg, s, step, c);
  }

  /** Over every run, a waiter that is not cancelled and no longer parked has
      returned exactly what its leader fetched, for the same key. */
  lemma {:induction false} WaiterGetsLeadersAnswer(cfg: Settings, s: State, run: seq<Step>, i: nat, key: Bytes, c: nat)
    requires Inv(cfg, s) && ValidRun(cfg, s, run) && WaiterOf(s, i, key, c)
    ensures WaiterOf(After(cfg, s, run), i, key, c)
    decreases |run|
  {
    hide Inv, Enabled, Next, WaiterOf;
    if run != [] {
      StepKeepsWaiter(cfg, s, run[0], i, key, c);
      StepKeeps(cfg, s, run[0]);
      WaiterGetsLeadersAnswer(cfg, Next(cfg, s, run[0]), run[1..], i, key, c);
    }
  }

  // ---------- nobody is stranded ----------

  /** Steps the leader still has to take before the channel is closed. */
  ghost function StepsToClose(phase: Phase): nat {
    match phase
    case Fetching(_) => 3
    case Fetched(_) => 2
    case Published(_) => 1
    case _ => 0
  }

  ghost function Actions(run: seq<Step>, i: nat): nat {
    if run == [] then 0 else (if run[0].caller == i then 1 else 0) + Actions(run[1..], i)
  }

  lemma {:induction false} SubsetOfSize(s: set<Bytes>, n: nat) returns (t: set<Bytes>)
    requires n <= |s|
    ensures t <= s && |t| == n
  {
    if n == 0 {
      t := {};
    } else {
      var x :| x in s;
      var u := SubsetOfSize(s - {x}, n - 1);
      t := u + {x};
    }
  }

  /** Whatever the entries are, there are live entries to evict when room is needed. */
  lemma VictimsExist(cfg: Settings, entries: Entries, now: int) returns (victims: set<Bytes>)
    ensures Victims(cfg, entries, now, victims)
  {
    var live := Unexpired(entries, now);
    if Full(cfg, entries) && |live| >= cfg.maxEntries {
      assert |live.Keys| == |live|;
      victims := SubsetOfSize(live.Keys, |live| - cfg.maxEntries + 1);
    } else {
      victims := {};
    }
  }

  /** While someone waits on an open call, its leader can move: once the fetch
      returns, nothing any other caller does can block it. */
  lemma LeaderCanMove(cfg: Settings, s: State, i: nat, answer: Answer) returns (step: Step)
    requires Inv(cfg, s)
    requires i in s.callers && s.callers[i].phase.Waiting? && !s.calls[s.callers[i].phase.call].closed
    ensures var leader := s.calls[s.callers[i].phase.call].leader;
      && Enabled(cfg, s, step) && step.caller == leader
      && StepsToClose(Next(cfg, s, step).callers[leader].phase) == StepsToClose(s.callers[leader].phase) - 1
  {
    var c := s.callers[i].phase.call;
    CallerIsSound(s, i);
    var leader := s.calls[c].leader;
    assert Led(s.callers, c, s.calls[c]);
    match s.callers[leader].phase
    case Fetching(_) => step := Receive(leader, answer);
    case Fetched(_) =>
      var victims := VictimsExist(cfg, s.entries, s.now);
      step := Publish(leader, s.now, s.now, victims);
    case Published(_) => step := Close(leader);
  }

  /** A step moves its own caller only. */
  lemma OthersStay(cfg: Settings, s: State, step: Step, i: nat)
    requires Enabled(cfg, s, step) && i in s.callers && step.caller != i
    ensures i in Next(cfg, s, step).callers && Next(cfg, s, step).callers[i] == s.callers[i]
  {
    hide Live, Stored, Victims, Lifetime, Admit, Returned;
    match step {
      case Publish(_, _, _, _) =>
      case Enter(_, _, _) =>
      case _ =>
    }
  }

  /** The steps of a leader on its way to the close are counted down. */
  lemma LeaderSteps(cfg: Settings, s: State, step: Step)
    requires Enabled(cfg, s, step) && step.caller in s.callers && Leading(s.callers[step.caller].phase)
    ensures var i := step.caller;
      && i in Next(cfg, s, step).callers
      && StepsToClose(Next(cfg, s, step).callers[i].phase) + 1 == StepsToClose(s.callers[i].phase)
  {
    hide Live, Stored, Victims, Lifetime;
  }

  lemma LeaderIsLeading(cfg: Settings, s: State, c: nat)
    requires Inv(cfg, s) && c in s.calls && !s.calls[c].closed
    ensures s.calls[c].leader in s.callers && Leading(s.callers[s.calls[c].leader].phase)
  {
    hide CallersSound, Registered, EntriesBacked, WithinCap;
    assert Led(s.callers, c, s.calls[c]);
  }

  lemma OneAction(step: Step, i: nat)
    ensures Actions([step], i) == if step.caller == i then 1 else 0
  {
    assert [step][1..] == [];
  }

  lemma StepCountsDown(cfg: Settings, s: State, step: Step, c: nat)
    requires Inv(cfg, s) && Enabled(cfg, s, step) && c in s.calls && !s.calls[c].closed
    ensures var leader := s.calls[c].leader;
      && c in Next(cfg, s, step).calls && Next(cfg, s, step).calls[c].leader == leader
      && leader in s.callers && leader in Next(cfg, s, step).callers
      && StepsToClose(Next(cfg, s, step).callers[leader].phase) + Actions([step], leader) == StepsToClose(s.callers[leader].phase)
  {
    hide Inv, Enabled, Next, StepsToClose, Actions, Leading;
    StepContinues(cfg, s, step, c);
    LeaderIsLeading(cfg, s, c);
    var leader := s.calls[c].leader;
    OneAction(step, leader);
    if step.caller == leader {
      LeaderSteps(cfg, s, step);
    } else {
      OthersStay(cfg, s, step, leader);
    }
  }

  /** In any run, the leader is as many of its own steps closer to closing as it
      has taken; so after three of them at most, every waiter can wake. */
  lemma {:induction false} LeaderCloses(cfg: Settings, s: State, run: seq<Step>, c: nat)
    requires Inv(cfg, s) && ValidRun(cfg, s, run) && c in s.calls
    ensures c in After(cfg, s, run).calls
    ensures s.calls[c].leader in s.callers
    ensures !After(cfg, s, run).calls[c].closed ==>
      && s.calls[c].leader in After(cfg, s, run).callers
      && 0 < StepsToClose(After(cfg, s, run).callers[s.calls[c].leader].phase)
         == StepsToClose(s.callers[s.calls[c].leader].phase) - Actions(run, s.calls[c].leader)
    decreases |run|
  {
    hide Enabled, Next;
    assert Led(s.callers, c, s.calls[c]);
    if run != [] {
      StepContinues(cfg, s, run[0], c);
      StepKeeps(cfg, s, run[0]);
      LeaderCloses(cfg, Next(cfg, s, run[0]), run[1..], c);
      if !s.calls[c].closed {
        StepCountsDown(cfg, s, run[0], c);
        assert [run[0]][1..] == [];
      } else {
        CallContinues(cfg, Next(cfg, s, run[0]), run[1..], c);
      }
    }
  }

  // ---------- what the entries hold ----------

  /** Each entry of a reachable state holds a success or a not-found that some
      call fetched for that very key, until its own lifetime after publication;
      and a positive cap is never exceeded. */
  lemma EntriesAreFetched(cfg: Settings, start: int, run: seq<Step>)
    requires ValidRun(cfg, Initial(start), run)
    ensures var s := After(cfg, Initial(start), run);
      && (forall key :: key in s.entries ==>
            exists c :: c in s.calls && Backed(cfg, key, s.entries[key], s.calls[c]))
      && (cfg.maxEntries > 0 ==> |s.entries| <= cfg.maxEntries)
  {
    ReachableInv(cfg, start, run);
  }

  /** No publication overwrites a live entry. */
  lemma NeverOverwritesLive(cfg: Settings, start: int, run: seq<Step>, step: Step)
    requires ValidRun(cfg, Initial(start), run)
    requires step.Publish? && Enabled(cfg, After(cfg, Initial(start), run), step)
    ensures var s := After(cfg, Initial(start), run);
      !Live(s.entries, s.callers[step.caller].key, step.evictAt)
  {
    ReachableInv(cfg, start, run);
    CallerIsSound(After(cfg, Initial(start), run), step.caller);
  }

  /** Every answer a caller returns was fetched for the key it asked about. */
  lemma AnswersAreFetched(cfg: Settings, start: int, run: seq<Step>, i: nat)
    requires ValidRun(cfg, Initial(start), run)
    requires i in After(cfg, Initial(start), run).callers && After(cfg, Initial(start), run).callers[i].phase.Done?
    ensures var s := After(cfg, Initial(start), run);
      exists c :: c in s.calls && s.calls[c].key == s.callers[i].key && s.calls[c].answer == Some(s.callers[i].phase.answer)
  {
    ReachableInv(cfg, start, run);
    CallerIsSound(After(cfg, Initial(start), run), i);
  }

  lemma {:induction false} Extend(cfg: Settings, s: State, run: seq<Step>, step: Step)
    requires ValidRun(cfg, s, run) && Enabled(cfg, After(cfg, s, run), step)
    ensures ValidRun(cfg, s, run + [step])
    ensures After(cfg, s, run + [step]) == Next(cfg, After(cfg, s, run), step)
    decreases |run|
  {
    hide Enabled, Next;
    if run == [] {
      assert [] + [step] == [step] && [step][1..] == [];
    } else {
      Extend(cfg, Next(cfg, s, run[0]), run[1..], step);
      assert (run + [step])[1..] == run[1..] + [step];
    }
  }

  /** A caller with nothing to hit or to join becomes a leader, in three steps. */
  /** On an idle key a new caller starts, misses, and registers a call, in three steps. */
  lemma LeadingSteps(cfg: Settings, t: State, i: nat, key: Bytes, c: nat) returns (t1: State, t2: State, t3: State)
    requires i !in t.callers && key !in t.entries && key !in t.inFlight && c !in t.calls
    ensures Enabled(cfg, t, Begin(i, key)) && t1 == Next(cfg, t, Begin(i, key))
    ensures Enabled(cfg, t1, Look(i, t.now)) && t2 == Next(cfg, t1, Look(i, t.now))
    ensures Enabled(cfg, t2, Enter(i, t.now, c)) && t3 == Next(cfg, t2, Enter(i, t.now, c))
    ensures t3.callers == t.callers[i := Caller(key, Fetching(c))]
    ensures t3.calls == t.calls[c := CallRecord(key, i, None, None, false)]
    ensures t3.inFlight == t.inFlight[key := c] && t3.entries == t.entries && t3.now == t.now
  {
    hide Victims, Stored, Lifetime;
    t1 := Next(cfg, t, Begin(i, key));
    t2 := Next(cfg, t1, Look(i, t.now));
    t3 := Next(cfg, t2, Enter(i, t.now, c));
  }

  lemma BecomesLeader(cfg: Settings, s: State, run: seq<Step>, i: nat, key: Bytes, c: nat) returns (longer: seq<Step>)
    requires ValidRun(cfg, s, run)
    requires var t := After(cfg, s, run);
      i !in t.callers && key !in t.entries && key !in t.inFlight && c !in t.calls
    ensures ValidRun(cfg, s, longer)
    ensures var t, t' := After(cfg, s, run), After(cfg, s, longer);
      && t'.callers == t.callers[i := Caller(key, Fetching(c))]
      && t'.calls == t.calls[c := CallRecord(key, i, None, None, false)]
      && t'.inFlight == t.inFlight[key := c] && t'.entries == t.entries && t'.now == t.now
  {
    hide Enabled, Next, ValidRun, After;
    var now := After(cfg, s, run).now;
    var t1, t2, t3 := LeadingSteps(cfg, After(cfg, s, run), i, key, c);
    Extend(cfg, s, run, Begin(i, key));
    longer := run + [Begin(i, key)];
    Extend(cfg, s, longer, Look(i, now));
    longer := longer + [Look(i, now)];
    Extend(cfg, s, longer, Enter(i, now, c));
    longer := longer + [Enter(i, now, c)];
  }

  /** Publication and close are separate: after a transient failure a second
      caller can be fetching while the first still holds its channel open. */
  lemma SecondLeaderBeforeClose(cfg: Settings, start: int, key: Bytes) returns (run: seq<Step>)
    ensures ValidRun(cfg, Initial(start), run)
    ensures var s := After(cfg, Initial(start), run);
      && 0 in s.callers && 1 in s.callers && s.callers[0].key == s.callers[1].key == key
      && s.callers[0].phase.Published? && s.callers[1].phase.Fetching?
  {
    run := BecomesLeader(cfg, Initial(start), [], 0, key, 0);
    Extend(cfg, Initial(start), run, Receive(0, Failed(0)));
    run := run + [Receive(0, Failed(0))];
    Extend(cfg, Initial(start), run, Publish(0, start, start, {}));
    run := run + [Publish(0, start, start, {})];
    run := BecomesLeader(cfg, Initial(start), run, 1, key, 1);
  }
}
