/** The fallback cache over whole runs: any number of requests, any upstream,
    and lookups and stores of different requests in any order. */
module Replay {
  import opened Strings
  import opened Headers
  import opened Numbers
  import opened Proxy
  import Base64
  import Engine
  import Links
  import Relisting
  import Shuffle
  import Sniffing
  import SubCache

  /** Which bodies the shuffler may turn into which. */
  type Moves = (Bytes, Bytes) -> bool

  datatype Setup = Setup(cfg: Config, moves: Moves)

  /** Where an entry came from: the request, what the upstream answered, and what else the stages read. */
  datatype Origin = Origin(incoming: Incoming, upstream: Reply, world: World)

  /** error is the response a replay stands in for, if there was one, and before
      what the answer's header held already when there was none. */
  datatype Outcome =
    | Passed(reply: Reply)
    | Replayed(entry: SubCache.Entry, origin: Option<Origin>, error: Option<Reply>, before: Header, reply: Reply)
    | Failed
    | Gone

  /** Looking at the cache with an error of the upstream in hand, or with none at all. */
  datatype Phase =
    | Waiting
    | Looking(error: Option<Reply>)
    | Handling(upstream: Reply)
    | Storing(origin: Origin)
    | Done(outcome: Outcome)

  datatype Visit = Visit(incoming: Incoming, phase: Phase)

  /** origins is a record kept for the proof only. */
  datatype State = State(entries: SubCache.Entries, origins: map<Bytes, Origin>, visits: map<nat, Visit>)

  datatype Step =
    | Arrive(id: nat, incoming: Incoming)
    | Respond(id: nat, reply: Reply)
    | Break(id: nat, canceled: bool)
    | Look(id: nat, now: int, shuffler: Shuffler, before: Header)
    | Handle(id: nat, world: World)
    | Keep(id: nat, storedAt: int, now: int, after: SubCache.Entries)

  const NOTHING := State(map[], map[], map[])

  /** One outcome of the shuffler: an unchanged body is the same body. */
  ghost predicate Honest(moves: Moves, shuffler: Shuffler) {
    forall b :: if shuffler(b).1 then moves(b, shuffler(b).0) else shuffler(b).0 == b
  }

  /** Header field values and client types never hold a NUL (section 5.5 of RFC 9110). */
  predicate Sendable(incoming: Incoming) {
    SubCache.NUL !in incoming.clientType && SubCache.NUL !in incoming.userAgent && SubCache.NUL !in incoming.acceptEncoding
  }

  /** The request is forwarded, and its response watched. */
  predicate Forwarded(cfg: Config, incoming: Incoming) {
    && !incoming.blocked && Observes(cfg)
    && (NoticeFor(cfg, incoming).Some? ==> !NoticeFor(cfg, incoming).value.block)
  }

  ghost predicate Enabled(u: Setup, s: State, step: Step)
    requires Usable(u.cfg)
  {
    if step.Arrive? then step.id !in s.visits && Sendable(step.incoming) && Forwarded(u.cfg, step.incoming)
    else
      && step.id in s.visits
      && var phase := s.visits[step.id].phase;
         var info := InfoFor(u.cfg, s.visits[step.id].incoming);
         match step
         case Respond(_, reply) => phase.Waiting? && AllCanonical(reply.header)
         case Break(_, _) => phase.Waiting?
         case Look(_, _, shuffler, _) => phase.Looking? && Honest(u.moves, shuffler)
         case Handle(_, world) => phase.Handling? && Honest(u.moves, world.shuffler)
         case Keep(_, storedAt, now, after) =>
           && phase.Storing? && u.cfg.cache.Some?
           && Made(u, phase.origin).payload.Payload?
           && SubCache.PutLeaves(u.cfg.cache.value, s.entries, info.cacheKey, EntryOf(Made(u, phase.origin), storedAt), now, after)
  }

  /** The response the stages made of what the upstream sent. */
  ghost function Made(u: Setup, o: Origin): Reply
    requires Usable(u.cfg)
  {
    Own(u.cfg, InfoFor(u.cfg, o.incoming), o.world, o.upstream)
  }

  ghost function Moved(s: State, id: nat, phase: Phase): State
    requires id in s.visits
  {
    s.(visits := s.visits[id := s.visits[id].(phase := phase)])
  }

  ghost function Next(u: Setup, s: State, step: Step): State
    requires Usable(u.cfg) && Enabled(u, s, step)
  {
    if step.Arrive? then s.(visits := s.visits[step.id := Visit(step.incoming, Waiting)])
    else
      var id := step.id;
      var incoming := s.visits[id].incoming;
      var info := InfoFor(u.cfg, incoming);
      match step
      case Respond(_, reply) => Moved(s, id, if reply.status >= 500 then Looking(Some(reply)) else Handling(reply))
      case Break(_, canceled) => Moved(s, id, if canceled then Done(Gone) else Looking(None))
      case Look(_, now, shuffler, before) =>
        var upstream := s.visits[id].phase.error;
        var hit := Hit(u.cfg, info, s.entries, now);
        Moved(s, id,
              if hit.Some? then
                Done(Replayed(hit.value, if info.cacheKey in s.origins then Some(s.origins[info.cacheKey]) else None,
                              upstream, before, ReplayTo(u.cfg, info, upstream, shuffler, before, hit.value)))
              else if upstream.Some? then Handling(upstream.value)
              else Done(Failed)).(entries := AfterLook(u.cfg, info, s.entries, now))
      case Handle(_, world) =>
        var o := Origin(incoming, s.visits[id].phase.upstream, world);
        Moved(s, id, if info.notice.None? && Keeps(u.cfg, info, Made(u, o)) then Storing(o) else Done(Passed(Made(u, o))))
      case Keep(_, _, _, after) =>
        var o := s.visits[id].phase.origin;
        Moved(s, id, Done(Passed(Made(u, o)))).(entries := after, origins := s.origins[info.cacheKey := o])
  }

  /** What a hit sends: in place of an error response, or with no response at all. */
  function ReplayTo(cfg: Config, info: Info, upstream: Option<Reply>, shuffler: Shuffler, before: Header,
          e: SubCache.Entry): Reply {
    if upstream.Some? then AfterShuffle(cfg, info, shuffler, ReplayOf(e)) else Fallback(cfg, info, shuffler, before, e)
  }

  ghost predicate ValidRun(u: Setup, s: State, run: seq<Step>)
    requires Usable(u.cfg)
    decreases |run|
  {
    run == [] || (Enabled(u, s, run[0]) && ValidRun(u, Next(u, s, run[0]), run[1..]))
  }

  ghost function After(u: Setup, s: State, run: seq<Step>): State
    requires Usable(u.cfg) && ValidRun(u, s, run)
    decreases |run|
  {
    if run == [] then s else After(u, Next(u, s, run[0]), run[1..])
  }

  // ---------- the invariant ----------

  /** The entry is what the stages made of this origin's response, kept under the origin's own key. */
  ghost predicate ComesFrom(u: Setup, key: Bytes, e: SubCache.Entry, o: Origin)
    requires Usable(u.cfg)
  {
    var info := InfoFor(u.cfg, o.incoming);
    && Sendable(o.incoming) && key == info.cacheKey != []
    && info.notice.None? && Honest(u.moves, o.world.shuffler)
    && Keeps(u.cfg, info, Made(u, o))
    && e == EntryOf(Made(u, o), e.storedAt)
  }

  /** The same entry, its hosts at most moved. Of an error response that it
      replaces no field is left; with no response at all, fields that the answer
      held already stay unless the entry has them too. */
  ghost predicate Faithful(moves: Moves, e: SubCache.Entry, error: Option<Reply>, before: Header, r: Reply) {
    && r.status == e.status
    && r.payload.Payload? && !r.payload.broken
    && (r.payload.unread == e.body || moves(e.body, r.payload.unread))
    && Field(r.header, CONTENT_LENGTH) == Some([Decimal(|r.payload.unread|)])
    && forall k :: k != CONTENT_LENGTH ==>
         Field(r.header, k) ==
         if k in e.header then Some(e.header[k]) else if error.Some? then None else Field(before, k)
  }

  ghost predicate VisitHolds(u: Setup, v: Visit)
    requires Usable(u.cfg)
  {
    var info := InfoFor(u.cfg, v.incoming);
    && Sendable(v.incoming)
    && (v.phase.Looking? && v.phase.error.Some? ==> v.phase.error.value.status >= 500)
    && (v.phase.Storing? ==>
          var o := v.phase.origin;
          o.incoming == v.incoming && info.notice.None? && Honest(u.moves, o.world.shuffler) && Keeps(u.cfg, info, Made(u, o)))
    && (v.phase.Done? && v.phase.outcome.Replayed? ==>
          var done := v.phase.outcome;
          && done.origin.Some?
          && ComesFrom(u, info.cacheKey, done.entry, done.origin.value)
          && (done.error.Some? ==> done.error.value.status >= 500)
          && Faithful(u.moves, done.entry, done.error, done.before, done.reply))
  }

  ghost predicate Inv(u: Setup, s: State)
    requires Usable(u.cfg)
  {
    && (forall k :: k in s.entries ==> k in s.origins && ComesFrom(u, k, s.entries[k], s.origins[k]))
    && (forall id :: id in s.visits ==> VisitHolds(u, s.visits[id]))
  }

  lemma ReplayIsFaithful(u: Setup, info: Info, upstream: Option<Reply>, shuffler: Shuffler, before: Header,
          e: SubCache.Entry)
    requires Honest(u.moves, shuffler)
    ensures Faithful(u.moves, e, upstream, before, ReplayTo(u.cfg, info, upstream, shuffler, before, e))
  {
    hide IsCompressed, Rewritable, Shuffles, Decimal;
  }

  lemma LookKeeps(u: Setup, s: State, step: Step)
    requires Usable(u.cfg) && Inv(u, s) && Enabled(u, s, step) && step.Look?
    ensures Inv(u, Next(u, s, step))
  {
    hide Usable, ComesFrom, Faithful, Honest, Sendable, InfoFor, ReplayTo, Made, Keeps;
    var info := InfoFor(u.cfg, s.visits[step.id].incoming);
    var hit := Hit(u.cfg, info, s.entries, step.now);
    if hit.Some? {
      ReplayIsFaithful(u, info, s.visits[step.id].phase.error, step.shuffler, step.before, hit.value);
    }
  }

  lemma KeepKeeps(u: Setup, s: State, step: Step)
    requires Usable(u.cfg) && Inv(u, s) && Enabled(u, s, step) && step.Keep?
    ensures Inv(u, Next(u, s, step))
  {
    hide Usable, Faithful, Honest, Sendable, Made, SubCache.PutLeaves, InfoFor, Rewritable;
    var v := s.visits[step.id];
    var o := v.phase.origin;
    var key := InfoFor(u.cfg, v.incoming).cacheKey;
    var e := EntryOf(Made(u, o), step.storedAt);
    PutAddsNoKey(u.cfg.cache.value, s.entries, key, e, step.now, step.after);
    assert VisitHolds(u, v);
    assert ComesFrom(u, key, e, o);
  }

  lemma StepKeeps(u: Setup, s: State, step: Step)
    requires Usable(u.cfg) && Inv(u, s) && Enabled(u, s, step)
    ensures Inv(u, Next(u, s, step))
  {
    hide Usable, ComesFrom, Faithful, Honest, Sendable, Made, SubCache.PutLeaves, InfoFor, Keeps;
    match step {
      case Look(_, _, _, _) => LookKeeps(u, s, step);
      case Keep(_, _, _, _) => KeepKeeps(u, s, step);
      case _ =>
    }
  }

  lemma {:induction false} RunKeeps(u: Setup, s: State, run: seq<Step>)
    requires Usable(u.cfg) && Inv(u, s) && ValidRun(u, s, run)
    ensures Inv(u, After(u, s, run))
    decreases |run|
  {
    hide Usable, Inv, Enabled, Next;
    if run != [] {
      StepKeeps(u, s, run[0]);
      RunKeeps(u, Next(u, s, run[0]), run[1..]);
    }
  }

  lemma ReachableInv(u: Setup, run: seq<Step>)
    requires Usable(u.cfg) && ValidRun(u, NOTHING, run)
    ensures Inv(u, After(u, NOTHING, run))
  {
    hide Usable, VisitHolds, ComesFrom, ValidRun;
    RunKeeps(u, NOTHING, run);
  }

  // ---------- what is ever replayed ----------

  /** Without a notice, the stages leave the status, the rewritten header bar
      Content-Length, and the body with its hosts at most moved. */
  lemma MadeOf(u: Setup, o: Origin)
    requires Usable(u.cfg) && Honest(u.moves, o.world.shuffler)
    requires InfoFor(u.cfg, o.incoming).notice.None?
    ensures var headed := Headed(u.cfg, InfoFor(u.cfg, o.incoming), o.world, o.upstream);
      var made := Made(u, o);
      && made.status == o.upstream.status == headed.status
      && (forall k :: k != CONTENT_LENGTH ==> Field(made.header, k) == Field(headed.header, k))
      && (|| made.payload == o.upstream.payload
          || (o.upstream.payload.Payload? && made.payload.Payload? && u.moves(o.upstream.payload.unread, made.payload.unread)))
  {
    hide IsCompressed, Rewritable, Shuffles, Decimal, Engine.Applied, InfoFor;
  }

  /** The sender of the entry asked for the same thing, and no agent rule matches it. */
  ghost predicate SameRequest(cfg: Config, v: Incoming, o: Incoming) {
    && o.shortUUID == v.shortUUID != [] && o.clientType == v.clientType
    && o.userAgent == v.userAgent && o.acceptEncoding == v.acceptEncoding
    && forall i :: 0 <= i < |cfg.agents| ==> !cfg.agents[i].matches(o.userAgent)
  }

  /** The entry is a 200 answer of the upstream that was no HTML once rewritten. */
  ghost predicate GoodAnswer(u: Setup, e: SubCache.Entry, o: Origin)
    requires Usable(u.cfg)
  {
    var headed := Headed(u.cfg, InfoFor(u.cfg, o.incoming), o.world, o.upstream);
    && e.status == o.upstream.status == 200
    && !IsHTML(u.cfg, e.header)
    && (forall k :: k != CONTENT_LENGTH ==> Field(e.header, k) == Field(headed.header, k))
    && o.upstream.payload.Payload?
    && (e.body == o.upstream.payload.unread || u.moves(o.upstream.payload.unread, e.body))
    && |e.body| <= u.cfg.cache.GetOr(SubCache.Limits(0, 0, 0)).maxBody
  }

  lemma KeysTellApart(cfg: Config, a: Incoming, b: Incoming)
    requires Sendable(a) && Sendable(b)
    requires InfoFor(cfg, a).cacheKey == InfoFor(cfg, b).cacheKey != []
    ensures SameRequest(cfg, a, b)
  {
    hide SubCache.Key, FirstMatch;
    WhoIsCached(cfg, a);
    WhoIsCached(cfg, b);
    SubCache.KeyInjective(a.shortUUID, a.clientType, a.userAgent, a.acceptEncoding,
                          b.shortUUID, b.clientType, b.userAgent, b.acceptEncoding);
  }

  lemma KeptIsGood(u: Setup, key: Bytes, e: SubCache.Entry, o: Origin)
    requires Usable(u.cfg) && ComesFrom(u, key, e, o)
    ensures GoodAnswer(u, e, o)
  {
    hide IsHTML, Headed, Own, Made, InfoFor, Honest;
    MadeOf(u, o);
  }

  /** Over every run of requests and upstream behaviours: whatever the cache holds
      came from a 200 answer, no HTML once rewritten, to a request of the same
      key that no agent rule matches. */
  lemma EntriesAreGoodAnswers(u: Setup, run: seq<Step>, key: Bytes)
    requires Usable(u.cfg) && ValidRun(u, NOTHING, run)
    requires key in After(u, NOTHING, run).entries
    ensures var s := After(u, NOTHING, run);
      && key in s.origins
      && GoodAnswer(u, s.entries[key], s.origins[key])
      && key == InfoFor(u.cfg, s.origins[key].incoming).cacheKey
  {
    hide Usable, ValidRun, After, GoodAnswer, VisitHolds, InfoFor, Made, Keeps;
    ReachableInv(u, run);
    var s := After(u, NOTHING, run);
    KeptIsGood(u, key, s.entries[key], s.origins[key]);
  }

  /** And every replay is such an entry, stored for the same short UUID, client
      type, User-Agent and Accept-Encoding: its status and header bar
      Content-Length, which is the length of the body, its hosts at most moved. */
  lemma ReplaysAreFaithful(u: Setup, run: seq<Step>, id: nat)
    requires Usable(u.cfg) && ValidRun(u, NOTHING, run)
    requires var s := After(u, NOTHING, run);
      id in s.visits && s.visits[id].phase.Done? && s.visits[id].phase.outcome.Replayed?
    ensures var v := After(u, NOTHING, run).visits[id];
      var done := v.phase.outcome;
      && done.origin.Some?
      && SameRequest(u.cfg, v.incoming, done.origin.value.incoming)
      && GoodAnswer(u, done.entry, done.origin.value)
      && (done.error.Some? ==> done.error.value.status >= 500)
      && Faithful(u.moves, done.entry, done.error, done.before, done.reply)
  {
    hide Usable, ValidRun, After, GoodAnswer, Faithful, SameRequest, InfoFor, Made, Keeps, Honest;
    ReachableInv(u, run);
    var v := After(u, NOTHING, run).visits[id];
    var done := v.phase.outcome;
    assert VisitHolds(u, v);
    KeptIsGood(u, InfoFor(u.cfg, v.incoming).cacheKey, done.entry, done.origin.value);
    KeysTellApart(u.cfg, v.incoming, done.origin.value.incoming);
  }

  // ---------- the web page ----------

  /** The engine hides from the stages that the response is HTML: what decides
      over Content-Type removes it, or writes something else. */
  ghost predicate Hides(cfg: Config, info: Info, world: World, h: Header)
    requires Usable(cfg)
  {
    Rewrites(cfg) &&
    var c := Engine.CallFor(cfg.engine.value, cfg.fetching, h, info.rq, world.answer, world.answeredAt);
    var decision := Engine.Deciding(c, Canonical(CONTENT_TYPE));
    && decision.Some?
    && !Contains(cfg.lower(if decision.value.remove then [] else Engine.Value(c, decision.value)), HTML)
  }

  lemma TypeIsNoUserInfo()
    ensures Canonical(CONTENT_TYPE) != Canonical(Engine.USER_INFO) && Canonical(CONTENT_TYPE) != CONTENT_LENGTH
  {
    hide Cased, IsToken;
    assert |Canonical(CONTENT_TYPE)| == |CONTENT_TYPE| != |Engine.USER_INFO| == |Canonical(Engine.USER_INFO)|;
  }

  lemma HTMLByField(cfg: Config, h: Header)
    ensures IsHTML(cfg, h) <==>
      var values := Field(h, Canonical(CONTENT_TYPE)).GetOr([]);
      Contains(cfg.lower(if values == [] then [] else values[0]), HTML)
  {
    hide Canonical, Contains, Field, Get;
    GetReadsField(h, CONTENT_TYPE);
  }

  /** The rewritten header of a web page no longer says so exactly when the engine hides it. */
  lemma HiddenIff(cfg: Config, info: Info, world: World, r: Reply)
    requires Usable(cfg) && IsHTML(cfg, r.header) && info.rq.shortUUID != []
    ensures !IsHTML(cfg, Headed(cfg, info, world, r).header) <==> Hides(cfg, info, world, r.header)
  {
    hide IsHTML, Canonical, Contains, Field, Engine.Deciding, Engine.Value, Engine.UserInfoOf, Engine.Prepared,
      Engine.Asks, Engine.Rewritten, Engine.Vars.Configured;
    if Rewrites(cfg) {
      var key := Canonical(CONTENT_TYPE);
      var c := Engine.CallFor(cfg.engine.value, cfg.fetching, r.header, info.rq, world.answer, world.answeredAt);
      HTMLByField(cfg, r.header);
      HTMLByField(cfg, Engine.Rewritten(c));
      TypeIsNoUserInfo();
      Engine.PreparedKeeps(cfg.engine.value, r.header, key);
      assert Field(Engine.Rewritten(c), key) == Engine.Settled(c, Engine.Deciding(c, key), key);
    }
  }

  lemma MadeIsJudgedAsHeaded(u: Setup, o: Origin)
    requires Usable(u.cfg) && InfoFor(u.cfg, o.incoming).notice.None?
    ensures Made(u, o).status == o.upstream.status
    ensures IsHTML(u.cfg, Made(u, o).header) <==>
      IsHTML(u.cfg, Headed(u.cfg, InfoFor(u.cfg, o.incoming), o.world, o.upstream).header)
  {
    hide IsHTML, IsCompressed, Canonical, Contains, Rewritable, Shuffles, Fits, Decimal, InfoFor, Engine.Applied;
    TypeIsNoUserInfo();
    HTMLByField(u.cfg, Made(u, o).header);
    HTMLByField(u.cfg, Headed(u.cfg, InfoFor(u.cfg, o.incoming), o.world, o.upstream).header);
  }

  /** A web page that fits, for a request with a key, is kept exactly when the engine hides that it is one. */
  lemma KeptPageIff(u: Setup, o: Origin)
    requires Usable(u.cfg) && InfoFor(u.cfg, o.incoming).cacheKey != []
    requires o.upstream.status == 200 && IsHTML(u.cfg, o.upstream.header)
    requires Fits(Made(u, o), u.cfg.cache.GetOr(SubCache.Limits(0, 0, 0)).maxBody)
    ensures Keeps(u.cfg, InfoFor(u.cfg, o.incoming), Made(u, o)) <==>
      Hides(u.cfg, InfoFor(u.cfg, o.incoming), o.world, o.upstream.header)
  {
    hide Usable, IsHTML, Hides, Headed, Fits, Made, KeyOf, NoticeFor;
    MadeIsJudgedAsHeaded(u, o);
    HiddenIff(u.cfg, InfoFor(u.cfg, o.incoming), o.world, o.upstream);
  }

  /** Over every run: a page that got into the cache was hidden by the engine. */
  lemma KeptPagesAreHidden(u: Setup, run: seq<Step>, key: Bytes)
    requires Usable(u.cfg) && ValidRun(u, NOTHING, run)
    requires var s := After(u, NOTHING, run);
      key in s.entries && key in s.origins && IsHTML(u.cfg, s.origins[key].upstream.header)
    ensures var o := After(u, NOTHING, run).origins[key];
      Hides(u.cfg, InfoFor(u.cfg, o.incoming), o.world, o.upstream.header)
  {
    hide Usable, ValidRun, After, IsHTML, Hides, VisitHolds, InfoFor, Made, Honest, Headed, Fits;
    ReachableInv(u, run);
    var o := After(u, NOTHING, run).origins[key];
    MadeIsJudgedAsHeaded(u, o);
    KeptPageIff(u, o);
  }

  /** Where the configuration leaves Content-Type alone, no page is in the cache after any run. */
  lemma NoPageIsKept(u: Setup, run: seq<Step>, key: Bytes)
    requires Usable(u.cfg) && ValidRun(u, NOTHING, run)
    requires var s := After(u, NOTHING, run); key in s.entries && key in s.origins
    requires var h := After(u, NOTHING, run).origins[key].upstream.header;
      Rewrites(u.cfg) ==> Engine.Unclaimed(u.cfg.engine.value, h, Canonical(CONTENT_TYPE))
    ensures !IsHTML(u.cfg, After(u, NOTHING, run).origins[key].upstream.header)
  {
    hide Usable, ValidRun, After, IsHTML, InfoFor, Rewrites, Hides, Canonical, Engine.Unclaimed;
    var o := After(u, NOTHING, run).origins[key];
    if IsHTML(u.cfg, o.upstream.header) {
      KeptPagesAreHidden(u, run, key);
      UnclaimedIsNotHidden(u.cfg, InfoFor(u.cfg, o.incoming), o.world, o.upstream.header);
    }
  }

  lemma UnclaimedIsNotHidden(cfg: Config, info: Info, world: World, h: Header)
    requires Usable(cfg)
    requires Rewrites(cfg) ==> Engine.Unclaimed(cfg.engine.value, h, Canonical(CONTENT_TYPE))
    ensures !Hides(cfg, info, world, h)
  {
    hide Usable, Canonical, Contains, Engine.Deciding, Engine.Value, Engine.Unclaimed, Engine.UserInfoOf,
      Engine.Prepared, Engine.Asks;
    if Rewrites(cfg) {
      var config := cfg.engine.value;
      var key := Canonical(CONTENT_TYPE);
      TypeIsNoUserInfo();
      Engine.PreparedKeeps(config, h, key);
      Engine.UnclaimedStays(config, h, Engine.Prepared(config, h), key);
      Engine.NothingDecides(Engine.CallFor(config, cfg.fetching, h, info.rq, world.answer, world.answeredAt), key);
    }
  }

  // ---------- which responses get in ----------

  /** The response came for a request that is forwarded, and its entry alone is within the budget. */
  ghost predicate MayEnter(u: Setup, o: Origin)
    requires Usable(u.cfg)
  {
    && Sendable(o.incoming) && Forwarded(u.cfg, o.incoming) && InfoFor(u.cfg, o.incoming).cacheKey != []
    && AllCanonical(o.upstream.header) && o.upstream.status < 500
    && Honest(u.moves, o.world.shuffler)
    && Made(u, o).payload.Payload?
    && var limits := u.cfg.cache.GetOr(SubCache.Limits(0, 0, 0));
       limits.maxBytes <= 0 || SubCache.Size(EntryOf(Made(u, o), 0)) <= limits.maxBytes
  }

  ghost predicate IsHeld(s: State, o: Origin) {
    exists key :: key in s.entries && key in s.origins && s.origins[key] == o
  }

  /** Some run ends with an entry made of just this response to just this request. */
  ghost predicate GetsIn(u: Setup, o: Origin)
    requires Usable(u.cfg)
  {
    exists run :: ValidRun(u, NOTHING, run) && IsHeld(After(u, NOTHING, run), o)
  }

  lemma AloneItFits(limits: SubCache.Limits, key: Bytes, e: SubCache.Entry, now: int)
    requires limits.maxBytes <= 0 || SubCache.Size(e) <= limits.maxBytes
    ensures SubCache.PutLeaves(limits, map[], key, e, now, map[key := e])
  {
    hide SubCache.Total, SubCache.Size;
    var none: SubCache.Entries := map[];
    var after: SubCache.Entries := map[key := e];
    SubCache.TotalOfNone();
    SubCache.TotalOfPlacing(none, key, e);
    assert none - {key} == none;
    assert SubCache.Evictions(limits, after, [], now) && SubCache.Minus(after, []) == after;
  }

  lemma KeptGetsIn(u: Setup, o: Origin)
    requires Usable(u.cfg) && MayEnter(u, o) && Keeps(u.cfg, InfoFor(u.cfg, o.incoming), Made(u, o))
    ensures GetsIn(u, o)
  {
    hide Usable, Honest, Sendable, Forwarded, AllCanonical, Made, Rewritable, Fits, SubCache.PutLeaves,
      SubCache.Size, KeyOf;
    WhoIsCached(u.cfg, o.incoming);
    var info := InfoFor(u.cfg, o.incoming);
    var e := EntryOf(Made(u, o), 0);
    AloneItFits(u.cfg.cache.value, info.cacheKey, e, 0);
    var arrive, respond, handle := Arrive(0, o.incoming), Respond(0, o.upstream), Handle(0, o.world);
    var s1 := Next(u, NOTHING, arrive);
    var s2 := Next(u, s1, respond);
    var s3 := Next(u, s2, handle);
    var keep := Keep(0, 0, 0, map[info.cacheKey := e]);
    assert s3.visits[0].phase == Storing(o);
    var s4 := Next(u, s3, keep);
    FourSteps(u, NOTHING, arrive, respond, handle, keep, s1, s2, s3);
    assert s4.origins[info.cacheKey] == o;
    assert IsHeld(s4, o);
  }

  /** Exactly the responses that the stages keep can be found in the cache after some run. */
  lemma GetsInIff(u: Setup, o: Origin)
    requires Usable(u.cfg) && MayEnter(u, o)
    ensures GetsIn(u, o) <==> Keeps(u.cfg, InfoFor(u.cfg, o.incoming), Made(u, o))
  {
    hide Usable, MayEnter, ValidRun, After, VisitHolds, Keeps, InfoFor, Made, Honest, Sendable;
    if Keeps(u.cfg, InfoFor(u.cfg, o.incoming), Made(u, o)) {
      KeptGetsIn(u, o);
    }
    if run :| ValidRun(u, NOTHING, run) && IsHeld(After(u, NOTHING, run), o) {
      ReachableInv(u, run);
    }
  }

  /** And of the web pages that fit, exactly those that the engine hides. */
  lemma PageGetsInIff(u: Setup, o: Origin)
    requires Usable(u.cfg) && MayEnter(u, o)
    requires o.upstream.status == 200 && IsHTML(u.cfg, o.upstream.header)
    requires Fits(Made(u, o), u.cfg.cache.GetOr(SubCache.Limits(0, 0, 0)).maxBody)
    ensures GetsIn(u, o) <==> Hides(u.cfg, InfoFor(u.cfg, o.incoming), o.world, o.upstream.header)
  {
    hide Usable, GetsIn, Hides, Fits, IsHTML, Keeps, InfoFor, Made, Honest, Sendable, Forwarded, AllCanonical;
    GetsInIff(u, o);
    KeptPageIff(u, o);
  }

  lemma FourSteps(u: Setup, s: State, a: Step, b: Step, c: Step, d: Step, s1: State, s2: State, s3: State)
    requires Usable(u.cfg)
    requires Enabled(u, s, a) && s1 == Next(u, s, a)
    requires Enabled(u, s1, b) && s2 == Next(u, s1, b)
    requires Enabled(u, s2, c) && s3 == Next(u, s2, c)
    requires Enabled(u, s3, d)
    ensures ValidRun(u, s, [a, b, c, d]) && After(u, s, [a, b, c, d]) == Next(u, s3, d)
  {
    hide Usable, Enabled, Next;
    OneStep(u, s, a, [b, c, d]);
    OneStep(u, s1, b, [c, d]);
    OneStep(u, s2, c, [d]);
    OneStep(u, s3, d, []);
  }

  lemma OneStep(u: Setup, s: State, step: Step, rest: seq<Step>)
    requires Usable(u.cfg) && Enabled(u, s, step)
    ensures ValidRun(u, s, [step] + rest) <==> ValidRun(u, Next(u, s, step), rest)
    ensures ValidRun(u, s, [step] + rest) ==> After(u, s, [step] + rest) == After(u, Next(u, s, step), rest)
  {
    hide Usable, Enabled, Next;
    assert ([step] + rest)[1..] == rest;
  }

  // ---------- a page that gets in ----------

  const PLAIN: Bytes := "x"

  /** A rule that writes Content-Type, whatever it held. */
  function PageConfig(f: Engine.Vars.Format): Config {
    var rule := Engine.Rule(CONTENT_TYPE, Some(PLAIN), Engine.Unencoded, false, Engine.Condition([], [], None, None, None), 0);
    var casing := Engine.Tmpl.Casing((s: Bytes) => s, (s: Bytes) => s);
    Config(Some(Engine.Config([rule], false, false, false, Engine.Vars.Resolver(map[], f), Engine.Tmpl.Keep, casing)),
           Engine.Fetching(false, false), Some(SubCache.Limits(0, 0, 0)), false, [], (s: Bytes) => s, (_, _) => [])
  }

  lemma PlainRenders(r: Engine.Tmpl.Renderer)
    ensures Engine.Tmpl.Rendered(r, PLAIN) == PLAIN
  {
    hide Engine.Tmpl.FindAll, Engine.Tmpl.Matches;
    Engine.Tmpl.NoBraceNoMatch(PLAIN, 0);
    assert PLAIN[0..] == PLAIN;
  }

  lemma PageDecided(c: Engine.Call, f: Engine.Vars.Format) returns (w: Engine.Candidate)
    requires c.view.config == PageConfig(f).engine.value
    ensures Engine.Deciding(c, Canonical(CONTENT_TYPE)) == Some(w)
    ensures !w.remove && w.source == PLAIN && w.form == Engine.Codec.Plain && w.rule.Some? && w.rule.value.maxLength == 0
  {
    hide Canonical, Engine.Text, FirstValue, Engine.SourceOf, Engine.Vars.Limit;
    var key := Canonical(CONTENT_TYPE);
    w := Engine.ForRule(c.view, c.view.config.rules[0]).value;
    assert Engine.Claims(c, 0, key);
    var first := Engine.FirstRule(c, key, 1);
  }

  function PageSetup(f: Engine.Vars.Format): Setup {
    Setup(PageConfig(f), (_, _) => false)
  }

  function PageOrigin(): Origin {
    Origin(Incoming(false, "u", [], [], [], [], []),
           Reply(200, map[Canonical(CONTENT_TYPE) := [HTML]], Payload([], false)),
           World(None, 0, None, 0, b => (b, false)))
  }

  lemma PageIsHidden(f: Engine.Vars.Format, info: Info)
    requires Engine.Vars.Configured(f)
    ensures Usable(PageConfig(f)) && Hides(PageConfig(f), info, PageOrigin().world, PageOrigin().upstream.header)
    ensures IsHTML(PageConfig(f), PageOrigin().upstream.header)
  {
    hide Canonical, Engine.Deciding, Engine.UserInfoOf, Engine.Prepared, Engine.Asks, Engine.Tmpl.Rendered,
      Engine.RendererOf;
    var cfg, o := PageConfig(f), PageOrigin();
    var c := Engine.CallFor(cfg.engine.value, cfg.fetching, o.upstream.header, info.rq, o.world.answer, o.world.answeredAt);
    var w := PageDecided(c, f);
    PlainRenders(Engine.WithOriginal(Engine.RendererOf(c), w.original));
    assert At(HTML, HTML, 0);
  }

  lemma PageMayEnter(f: Engine.Vars.Format)
    requires Engine.Vars.Configured(f)
    ensures var u, o := PageSetup(f), PageOrigin();
      Usable(u.cfg) && MayEnter(u, o) && Fits(Made(u, o), u.cfg.cache.GetOr(SubCache.Limits(0, 0, 0)).maxBody)
  {
    hide Canonical, Headed, IsHTML, SubCache.Key, SubCache.Size;
    CanonicalTwice(CONTENT_TYPE);
    WhoIsCached(PageConfig(f), PageOrigin().incoming);
    MadeKeepsBody(PageSetup(f), PageOrigin());
  }

  lemma MadeKeepsBody(u: Setup, o: Origin)
    requires Usable(u.cfg) && !u.cfg.shuffling && u.cfg.agents == []
    ensures Made(u, o).payload == o.upstream.payload
  {
    hide Engine.Applied;
  }

  /** So with such a rule there is a run after which the cache holds a page that came as HTML. */
  lemma PageGetsIn(f: Engine.Vars.Format)
    requires Engine.Vars.Configured(f)
    ensures Usable(PageConfig(f)) && GetsIn(PageSetup(f), PageOrigin())
    ensures IsHTML(PageConfig(f), PageOrigin().upstream.header)
  {
    hide PageConfig, GetsIn, Hides, Fits, IsHTML, Made, MayEnter, Engine.Vars.Configured, Usable, InfoFor;
    PageMayEnter(f);
    PageIsHidden(f, InfoFor(PageConfig(f), PageOrigin().incoming));
    PageGetsInIff(PageSetup(f), PageOrigin());
  }

  // ---------- link lists ----------

  /** The shuffler's moves on bodies that sniff as links are outcomes of the link shuffle. */
  ghost predicate MovesLinks(moves: Moves, groups: Shuffle.Groups, ps: Links.PsReader) {
    forall a, b :: moves(a, b) && Sniffing.Sniff(a) == Sniffing.LinkList ==> LinkMove(groups, ps, a, b)
  }

  ghost predicate LinkMove(groups: Shuffle.Groups, ps: Links.PsReader, a: Bytes, b: Bytes) {
    Links.DecodeList(a).Some? && exists random :: Shuffle.Proper(random) && b == Relisting.Outcome(groups, random, ps, a)
  }

  /** Under this wrapping b reads as the given lines, moved within their groups. */
  ghost predicate HoldsLinks(groups: Shuffle.Groups, ps: Links.PsReader, lines: seq<Bytes>, b: Bytes,
          enc: Option<Base64.Encoding>) {
    Relisting.Reading(b, enc).Some? &&
    Relisting.SameLinks(groups, ps, lines, Split(Relisting.Reading(b, enc).value, Links.NEWLINE))
  }

  lemma MoveHolds(groups: Shuffle.Groups, ps: Links.PsReader, a: Bytes, b: Bytes)
    requires LinkMove(groups, ps, a, b) && Sniffing.Sniff(a) == Sniffing.LinkList
    ensures HoldsLinks(groups, ps, Relisting.LinesOf(a), b, Links.DecodeList(a).value.1)
    ensures Links.DecodeList(b).Some? ==> Relisting.SameLinks(groups, ps, Relisting.LinesOf(a), Relisting.LinesOf(b))
  {
    hide Links.DecodeList, Relisting.Reading, Relisting.MovedLinesOf, Relisting.SameLinks, Relisting.Outcome,
      Split, Join,
      Sniffing.Sniff;
    var random :| Shuffle.Proper(random) && b == Relisting.Outcome(groups, random, ps, a);
    Relisting.OutcomeHolds(groups, random, ps, a);
    Relisting.MovedAreSame(groups, random, ps, Relisting.LinesOf(a));
    Relisting.OutcomeReads(groups, random, ps, a);
  }

  lemma StayHolds(groups: Shuffle.Groups, ps: Links.PsReader, a: Bytes)
    requires Links.DecodeList(a).Some?
    ensures HoldsLinks(groups, ps, Relisting.LinesOf(a), a, Links.DecodeList(a).value.1)
  {
    hide Links.DecodeList, Relisting.Reading, Relisting.SameLinks, Split;
    Relisting.ListReads(a);
    Relisting.SameLinksSelf(groups, ps, Relisting.LinesOf(a));
  }

  lemma HoldsOn(groups: Shuffle.Groups, ps: Links.PsReader, lines: seq<Bytes>, more: seq<Bytes>, b: Bytes,
          enc: Option<Base64.Encoding>)
    requires Relisting.SameLinks(groups, ps, lines, more) && HoldsLinks(groups, ps, more, b, enc)
    ensures HoldsLinks(groups, ps, lines, b, enc)
  {
    hide Relisting.SameLinks, Relisting.Reading, Split;
    Relisting.SameLinksTwice(groups, ps, lines, more, Split(Relisting.Reading(b, enc).value, Links.NEWLINE));
  }

  ghost predicate IsReplay(u: Setup, run: seq<Step>, id: nat)
    requires Usable(u.cfg) && ValidRun(u, NOTHING, run)
  {
    var s := After(u, NOTHING, run);
    id in s.visits && s.visits[id].phase.Done? && s.visits[id].phase.outcome.Replayed?
  }

  /** The stored body, and the body of the response it was made of, for a replay of a run. */
  lemma ReplayedBodies(u: Setup, run: seq<Step>, id: nat)
    requires Usable(u.cfg) && ValidRun(u, NOTHING, run) && IsReplay(u, run, id)
    ensures var done := After(u, NOTHING, run).visits[id].phase.outcome;
      && done.origin.Some? && done.origin.value.upstream.payload.Payload? && done.reply.payload.Payload?
      && var (sent, kept, replayed) := (done.origin.value.upstream.payload.unread, done.entry.body, done.reply.payload.unread);
         (kept == sent || u.moves(sent, kept)) && (replayed == kept || u.moves(kept, replayed))
  {
    hide Usable, ValidRun, After, SameRequest, IsHTML, Headed, InfoFor;
    ReplaysAreFaithful(u, run, id);
  }

  /** Over every run: a link list replayed from the cache is the stored list
      whole, its lines moved within their groups and the others in place. */
  lemma ReplayedLinks(u: Setup, run: seq<Step>, id: nat, groups: Shuffle.Groups, ps: Links.PsReader)
    requires Usable(u.cfg) && ValidRun(u, NOTHING, run) && IsReplay(u, run, id) && MovesLinks(u.moves, groups, ps)
    requires Relisting.ReadsAsLinks(After(u, NOTHING, run).visits[id].phase.outcome.entry.body)
    ensures var done := After(u, NOTHING, run).visits[id].phase.outcome;
      && done.reply.payload.Payload?
      && HoldsLinks(groups, ps, Relisting.LinesOf(done.entry.body), done.reply.payload.unread,
                    Links.DecodeList(done.entry.body).value.1)
  {
    hide Usable, ValidRun, After, HoldsLinks, LinkMove, Links.DecodeList, Sniffing.Sniff;
    ReplayedBodies(u, run, id);
    var done := After(u, NOTHING, run).visits[id].phase.outcome;
    StayHolds(groups, ps, done.entry.body);
    if done.reply.payload.unread != done.entry.body {
      MoveHolds(groups, ps, done.entry.body, done.reply.payload.unread);
    }
  }

  /** A list moved at most twice still holds the lines it had, as long as the
      first move left something that sniffs as links. */
  lemma TwiceMoved(groups: Shuffle.Groups, ps: Links.PsReader, moves: Moves, sent: Bytes, kept: Bytes, replayed: Bytes)
    requires MovesLinks(moves, groups, ps) && Relisting.ReadsAsLinks(sent) && Sniffing.Sniff(kept) == Sniffing.LinkList
    requires kept == sent || moves(sent, kept)
    requires replayed == kept || moves(kept, replayed)
    ensures exists enc :: HoldsLinks(groups, ps, Relisting.LinesOf(sent), replayed, enc)
  {
    hide HoldsLinks, Links.DecodeList, Sniffing.Sniff, Relisting.LinesOf, Relisting.SameLinks, Relisting.Outcome;
    if kept == sent {
      StayHolds(groups, ps, sent);
      if replayed != kept {
        assert LinkMove(groups, ps, kept, replayed);
        MoveHolds(groups, ps, kept, replayed);
      }
    } else {
      assert LinkMove(groups, ps, sent, kept);
      MoveHolds(groups, ps, sent, kept);
      if replayed != kept {
        assert LinkMove(groups, ps, kept, replayed);
        MoveHolds(groups, ps, kept, replayed);
        HoldsOn(groups, ps, Relisting.LinesOf(sent), Relisting.LinesOf(kept), replayed, Links.DecodeList(kept).value.1);
      }
    }
  }

  /** And it holds the lines the upstream sent, shuffled when stored and again
      when replayed, as long as what was stored still sniffs as links. */
  lemma ReplayedUpstreamLinks(u: Setup, run: seq<Step>, id: nat, groups: Shuffle.Groups, ps: Links.PsReader)
    requires Usable(u.cfg) && ValidRun(u, NOTHING, run) && IsReplay(u, run, id) && MovesLinks(u.moves, groups, ps)
    requires var done := After(u, NOTHING, run).visits[id].phase.outcome;
      && done.origin.Some? && done.origin.value.upstream.payload.Payload?
      && Relisting.ReadsAsLinks(done.origin.value.upstream.payload.unread)
      && (|| Sniffing.Sniff(done.entry.body) == Sniffing.LinkList
          || Relisting.Steady(groups, ps, done.origin.value.upstream.payload.unread))
    ensures var done := After(u, NOTHING, run).visits[id].phase.outcome;
      && done.reply.payload.Payload?
      && exists enc :: HoldsLinks(groups, ps, Relisting.LinesOf(done.origin.value.upstream.payload.unread),
                                  done.reply.payload.unread, enc)
  {
    hide Usable, ValidRun, After, HoldsLinks, Sniffing.Sniff, Links.DecodeList, Relisting.Steady, Relisting.Outcome,
      Relisting.LinesOf;
    ReplayedBodies(u, run, id);
    var done := After(u, NOTHING, run).visits[id].phase.outcome;
    var sent, kept := done.origin.value.upstream.payload.unread, done.entry.body;
    if Relisting.Steady(groups, ps, sent) && kept != sent {
      assert LinkMove(groups, ps, sent, kept);
      var random :| Shuffle.Proper(random) && kept == Relisting.Outcome(groups, random, ps, sent);
      Relisting.StaysAList(groups, ps, sent);
      assert Relisting.ReadsAsLinks(kept);
    }
    TwiceMoved(groups, ps, u.moves, sent, kept, done.reply.payload.unread);
  }
}
