/** What happens to one request: whether it is forwarded, and what becomes of the
    upstream's response, or of its absence. */
module Proxy {
  import opened Strings
  import opened Headers
  import opened Numbers
  import opened Body
  import opened Sniffing
  import Codec
  import Engine
  import Lines
  import Links
  import Placeholder
  import SubCache
  import Vars

  datatype AgentRule = AgentRule(matches: Bytes -> bool, block: bool, message: Bytes, announce: bool)

  /** The configured stages. `trees` writes placeholder hosts in the formats other than links. */
  datatype Config = Config(
    engine: Option<Engine.Config>, fetching: Engine.Fetching, cache: Option<SubCache.Limits>,
    shuffling: bool, agents: seq<AgentRule>, lower: Bytes -> Bytes, trees: (Format, seq<Bytes>) -> Bytes)

  predicate Usable(cfg: Config) {
    && (cfg.engine.Some? ==> Engine.Usable(cfg.engine.value))
    && (cfg.cache.Some? ==> cfg.cache.value.maxBody < MAX_INT64)
  }

  // ---------- admitting a request ----------

  datatype Incoming = Incoming(
    blocked: bool, shortUUID: Bytes, clientType: Bytes, userAgent: Bytes, acceptEncoding: Bytes,
    clientIP: Bytes, subscriptionURL: Bytes)

  /** cacheKey is empty for a request that must not touch the cache. */
  datatype Info = Info(rq: Engine.Request, cacheKey: Bytes, notice: Option<AgentRule>)

  datatype Plan = Refuse | Forward(info: Option<Info>) | Answer(rq: Engine.Request, rule: AgentRule)

  predicate Rewrites(cfg: Config) {
    cfg.engine.Some? && (cfg.engine.value.rules != [] || cfg.engine.value.scanAll || cfg.engine.value.forceUnlimited)
  }

  predicate Observes(cfg: Config) {
    Rewrites(cfg) || cfg.cache.Some? || cfg.shuffling || cfg.agents != []
  }

  /** The first rule whose pattern matches. */
  function FirstMatch(agents: seq<AgentRule>, userAgent: Bytes): (i: Option<nat>)
    ensures i.Some? ==> i.value < |agents| && agents[i.value].matches(userAgent)
    ensures forall j :: 0 <= j < (if i.Some? then i.value else |agents|) ==> !agents[j].matches(userAgent)
    decreases |agents|
  {
    if agents == [] then None
    else if agents[0].matches(userAgent) then Some(0)
    else
      var rest := FirstMatch(agents[1..], userAgent);
      assert forall j :: 0 < j < |agents| ==> agents[j] == agents[1..][j - 1];
      if rest.Some? then Some(rest.value + 1) else None
  }

  function NoticeFor(cfg: Config, incoming: Incoming): Option<AgentRule> {
    var i := FirstMatch(cfg.agents, incoming.userAgent);
    if incoming.shortUUID == [] || i.None? then None else Some(cfg.agents[i.value])
  }

  function RequestOf(incoming: Incoming, full: bool): Engine.Request {
    Engine.Request(incoming.shortUUID, incoming.clientType, incoming.userAgent,
                   if full then incoming.clientIP else [], if full then incoming.subscriptionURL else [])
  }

  function KeyOf(incoming: Incoming): Bytes {
    SubCache.Key(incoming.shortUUID, incoming.clientType, incoming.userAgent, incoming.acceptEncoding)
  }

  /** What later stages know about a forwarded request. */
  function InfoFor(cfg: Config, incoming: Incoming): Info {
    var notice := NoticeFor(cfg, incoming);
    Info(RequestOf(incoming, Rewrites(cfg) || notice.Some?),
         if cfg.cache.Some? && incoming.shortUUID != [] && notice.None? then KeyOf(incoming) else [],
         notice)
  }

  method Match(agents: seq<AgentRule>, userAgent: Bytes) returns (rule: Option<AgentRule>)
    ensures var i := FirstMatch(agents, userAgent); rule == if i.Some? then Some(agents[i.value]) else None
  {
    for i := 0 to |agents|
      invariant forall j :: 0 <= j < i ==> !agents[j].matches(userAgent)
    {
      if agents[i].matches(userAgent) {
        return Some(agents[i]);
      }
    }
    rule := None;
  }

  method Admit(cfg: Config, incoming: Incoming) returns (plan: Plan)
    ensures plan.Refuse? <==> incoming.blocked
    ensures plan.Answer? <==>
      !incoming.blocked && Observes(cfg) && NoticeFor(cfg, incoming).Some? && NoticeFor(cfg, incoming).value.block
    ensures plan.Answer? ==> plan.rq == RequestOf(incoming, true) && Some(plan.rule) == NoticeFor(cfg, incoming)
    ensures plan.Forward? ==> plan.info == if Observes(cfg) then Some(InfoFor(cfg, incoming)) else None
  {
    if incoming.blocked {
      return Refuse;
    }
    if !Observes(cfg) {
      return Forward(None);
    }
    var notice: Option<AgentRule> := None;
    if incoming.shortUUID != [] {
      notice := Match(cfg.agents, incoming.userAgent);
    }
    if notice.Some? && notice.value.block {
      return Answer(RequestOf(incoming, true), notice.value);
    }
    var key: Bytes := [];
    if cfg.cache.Some? && incoming.shortUUID != [] && notice.None? {
      key := KeyOf(incoming);
    }
    plan := Forward(Some(Info(RequestOf(incoming, Rewrites(cfg) || notice.Some?), key, notice)));
  }

  /** A request may touch the cache exactly when it names a subscription and no agent rule matches it. */
  lemma WhoIsCached(cfg: Config, incoming: Incoming)
    ensures InfoFor(cfg, incoming).cacheKey != [] <==>
      && cfg.cache.Some? && incoming.shortUUID != []
      && forall i :: 0 <= i < |cfg.agents| ==> !cfg.agents[i].matches(incoming.userAgent)
    ensures InfoFor(cfg, incoming).cacheKey != [] ==> InfoFor(cfg, incoming).cacheKey == KeyOf(incoming)
  {}

  // ---------- responses ----------

  /** What of a response can be seen: its status, its header, and what can be read of its body. */
  datatype Payload = Missing | Payload(unread: Bytes, broken: bool)
  datatype Reply = Reply(status: int, header: Header, payload: Payload)

  ghost function Seen(resp: Response): (r: Reply)
    reads resp, Readers(resp.body)
    ensures r.status == resp.status && r.header == resp.header
  {
    Reply(resp.status, resp.header,
          if resp.body.NoBody? then Missing else Payload(Unread(resp.body), Broken(resp.body)))
  }

  const CONTENT_TYPE: Bytes := "Content-Type"
  const CONTENT_ENCODING: Bytes := "Content-Encoding"
  const HTML: Bytes := "text/html"
  const IDENTITY: Bytes := "identity"

  predicate IsHTML(cfg: Config, h: Header) {
    Contains(cfg.lower(Get(h, CONTENT_TYPE)), HTML)
  }

  predicate IsCompressed(cfg: Config, h: Header) {
    var enc := cfg.lower(TrimSpace(Get(h, CONTENT_ENCODING)));
    enc != [] && enc != IDENTITY
  }

  /** Error answers and the web page always pass as they came. */
  predicate Rewritable(cfg: Config, status: int, h: Header) {
    status == 200 && !IsHTML(cfg, h)
  }

  /** The body can be held in memory within this size. */
  predicate Fits(r: Reply, maxBody: int) {
    r.payload.Payload? && !r.payload.broken && |r.payload.unread| <= maxBody
  }

  function WithBody(r: Reply, body: Bytes): Reply {
    Reply(r.status, r.header[CONTENT_LENGTH := [Decimal(|body|)]], Payload(body, false))
  }

  const MAX_SHUFFLE := 8 * 1024 * 1024

  predicate Shuffles(cfg: Config, info: Info) {
    cfg.shuffling && info.rq.shortUUID != []
  }

  /** What one call of the shuffler makes of each body, and whether it changed it. */
  type Shuffler = Bytes -> (Bytes, bool)

  function AfterShuffle(cfg: Config, info: Info, shuffler: Shuffler, r: Reply): Reply {
    if Shuffles(cfg, info) && Rewritable(cfg, r.status, r.header) && !IsCompressed(cfg, r.header)
       && Fits(r, MAX_SHUFFLE) && shuffler(r.payload.unread).1
    then WithBody(r, shuffler(r.payload.unread).0)
    else r
  }

  method Hold(resp: Response, maxBody: int) returns (body: Bytes, ok: bool)
    requires resp.Valid() && maxBody < MAX_INT64
    modifies resp`body, Readers(resp.body)
    ensures resp.Valid() && fresh(Readers(resp.body) - old(Readers(resp.body)))
    ensures Seen(resp) == old(Seen(resp))
    ensures ok <==> Fits(Seen(resp), maxBody)
    ensures ok ==> body == Seen(resp).payload.unread
  {
    hide Unread, Broken, Sound;
    body, ok := resp.Drain(maxBody);
  }

  method Replace(resp: Response, body: Bytes)
    modifies resp
    ensures resp.Valid() && fresh(Readers(resp.body))
    ensures Seen(resp) == WithBody(old(Seen(resp)), body)
  {
    hide Decimal;
    resp.SetBody(body);
  }

  method ShuffleHosts(cfg: Config, info: Info, shuffler: Shuffler, resp: Response)
    requires resp.Valid()
    modifies resp, Readers(resp.body)
    ensures resp.Valid() && fresh(Readers(resp.body) - old(Readers(resp.body)))
    ensures Seen(resp) == AfterShuffle(cfg, info, shuffler, old(Seen(resp)))
  {
    hide Seen, Unread, Broken, Sound, IsHTML, IsCompressed, Rewritable, Fits, WithBody, Decimal, Shuffles, AfterShuffle;
    ShuffleCases(cfg, info, shuffler, Seen(resp));
    if !Shuffles(cfg, info) || !Rewritable(cfg, resp.status, resp.header) {
      return;
    }
    if IsCompressed(cfg, resp.header) {
      return;
    }
    var body, ok := Hold(resp, MAX_SHUFFLE);
    if !ok {
      return;
    }
    var (shuffled, changed) := shuffler(body);
    if changed {
      Replace(resp, shuffled);
    }
  }

  lemma ShuffleCases(cfg: Config, info: Info, shuffler: Shuffler, r: Reply)
    ensures Fits(r, MAX_SHUFFLE) ==> r.payload.Payload?
    ensures AfterShuffle(cfg, info, shuffler, r) ==
      if !Shuffles(cfg, info) || !Rewritable(cfg, r.status, r.header) || IsCompressed(cfg, r.header)
         || !Fits(r, MAX_SHUFFLE) || !shuffler(r.payload.unread).1 then r
      else WithBody(r, shuffler(r.payload.unread).0)
    ensures MAX_SHUFFLE < MAX_INT64
  {
    hide Shuffles, Rewritable, IsCompressed, WithBody;
  }

  // ---------- the fallback cache ----------

  predicate Keeps(cfg: Config, info: Info, r: Reply) {
    && cfg.cache.Some? && info.cacheKey != []
    && Rewritable(cfg, r.status, r.header) && Fits(r, cfg.cache.value.maxBody)
  }

  function EntryOf(r: Reply, storedAt: int): SubCache.Entry
    requires r.payload.Payload?
  {
    SubCache.Entry(r.status, r.header, r.payload.unread, storedAt)
  }

  /** What the cache holds for this request at this time. */
  function Hit(cfg: Config, info: Info, entries: SubCache.Entries, now: int): Option<SubCache.Entry> {
    if cfg.cache.None? || info.cacheKey == [] || info.cacheKey !in entries
       || SubCache.Expired(cfg.cache.value, entries[info.cacheKey], now)
    then None else Some(entries[info.cacheKey])
  }

  /** Looking removes an entry that has expired. */
  function AfterLook(cfg: Config, info: Info, entries: SubCache.Entries, now: int): SubCache.Entries {
    if cfg.cache.Some? && info.cacheKey != [] && info.cacheKey in entries
       && SubCache.Expired(cfg.cache.value, entries[info.cacheKey], now)
    then entries - {info.cacheKey} else entries
  }

  ghost predicate Backs(cfg: Config, cache: SubCache.Cache?)
    reads cache
  {
    && (cache == null <==> cfg.cache.None?)
    && (cache != null ==> cache.limits == cfg.cache.value && cache.Valid() && "" !in cache.entries)
  }

  ghost function EntriesOf(cache: SubCache.Cache?): SubCache.Entries
    reads cache
  {
    if cache == null then map[] else cache.entries
  }

  method Cached(cfg: Config, info: Info, cache: SubCache.Cache?, now: int) returns (found: Option<SubCache.Entry>)
    requires Backs(cfg, cache)
    modifies cache
    ensures Backs(cfg, cache)
    ensures found == Hit(cfg, info, old(EntriesOf(cache)), now)
    ensures EntriesOf(cache) == AfterLook(cfg, info, old(EntriesOf(cache)), now)
  {
    if cache == null || info.cacheKey == [] {
      return None;
    }
    found := cache.Get(info.cacheKey, now);
  }

  function ReplayOf(e: SubCache.Entry): Reply {
    WithBody(Reply(e.status, e.header, Missing), e.body)
  }

  /** Covers a reachable page with a dead panel behind it. */
  method ReplaceWithCache(cfg: Config, info: Info, resp: Response, cache: SubCache.Cache?, now: int)
    returns (replaced: bool)
    requires resp.Valid() && Backs(cfg, cache)
    modifies resp, cache
    ensures resp.Valid() && fresh(Readers(resp.body) - old(Readers(resp.body))) && Backs(cfg, cache)
    ensures var hit := Hit(cfg, info, old(EntriesOf(cache)), now);
      && (replaced <==> old(resp.status) >= 500 && hit.Some?)
      && Seen(resp) == if replaced then ReplayOf(hit.value) else old(Seen(resp))
    ensures EntriesOf(cache) ==
      if old(resp.status) >= 500 then AfterLook(cfg, info, old(EntriesOf(cache)), now) else old(EntriesOf(cache))
  {
    if resp.status < 500 {
      return false;
    }
    var entry := Cached(cfg, info, cache, now);
    if entry.None? {
      return false;
    }
    resp.status := entry.value.status;
    resp.header := entry.value.header;
    resp.SetBody(entry.value.body);
    replaced := true;
  }

  /** Stores skips the web page, and whatever cannot be held. */
  method Store(cfg: Config, info: Info, resp: Response, cache: SubCache.Cache?, storedAt: int, now: int)
    requires Usable(cfg) && resp.Valid() && Backs(cfg, cache)
    modifies resp, Readers(resp.body), cache
    ensures resp.Valid() && Seen(resp) == old(Seen(resp)) && Backs(cfg, cache)
    ensures !Keeps(cfg, info, old(Seen(resp))) ==> EntriesOf(cache) == old(EntriesOf(cache))
    ensures Keeps(cfg, info, old(Seen(resp))) ==>
      SubCache.PutLeaves(cfg.cache.value, old(EntriesOf(cache)), info.cacheKey, EntryOf(old(Seen(resp)), storedAt), now, EntriesOf(cache))
  {
    hide IsHTML, SubCache.PutLeaves;
    if cache == null || info.cacheKey == [] || !Rewritable(cfg, resp.status, resp.header) {
      return;
    }
    var body, ok := resp.Drain(cache.limits.maxBody);
    if !ok {
      return;
    }
    var entry := SubCache.Entry(resp.status, resp.header, body, 0);
    cache.Put(info.cacheKey, Some(entry), storedAt, now);
    PutAddsNoKey(cfg.cache.value, old(EntriesOf(cache)), info.cacheKey, entry.(storedAt := storedAt), now, cache.entries);
  }

  lemma PutAddsNoKey(limits: SubCache.Limits, entries: SubCache.Entries, key: Bytes, e: SubCache.Entry, now: int,
          after: SubCache.Entries)
    requires SubCache.PutLeaves(limits, entries, key, e, now, after)
    ensures forall k :: k in after ==> if k == key then after[k] == e else k in entries && after[k] == entries[k]
  {
    hide SubCache.Evictions;
  }

  // ---------- notices ----------

  const ANNOUNCE: Bytes := "announce"
  const ETAG: Bytes := "ETag"
  const NEWLINE: byte := '\n'

  /** A message rendered to nothing falls back to the raw text. */
  function Spoken(rule: AgentRule, rendered: Bytes): Bytes {
    TrimSpace(if TrimSpace(rendered) == [] then rule.message else rendered)
  }

  /** The message, rendered from the header as the upstream sent it. */
  ghost function MessageFor(cfg: Config, h: Header, rq: Engine.Request, rule: AgentRule, answer: Option<Vars.User>,
          now: int): Bytes
    requires Usable(cfg)
  {
    Spoken(rule,
           if cfg.engine.None? then rule.message
           else Engine.Message(cfg.engine.value, cfg.fetching, h, rq, rule.message, answer, now))
  }

  /** A rule with words never falls silent: whatever its message renders to, the
      notice has words, and none of them is lost to trimming it again. */
  method NoticeMessage(cfg: Config, h: Header, rq: Engine.Request, rule: AgentRule, answer: Option<Vars.User>, now: int)
    returns (message: Bytes)
    requires Usable(cfg)
    ensures message == MessageFor(cfg, h, rq, rule, answer, now)
    ensures TrimSpace(message) == message
    ensures message == [] ==> TrimSpace(rule.message) == []
  {
    hide TrimSpace, Engine.Message;
    message := rule.message;
    if cfg.engine.Some? {
      message := Engine.Render(cfg.engine.value, cfg.fetching, h, rq, message, answer, now);
    }
    if TrimSpace(message) == [] {
      message := rule.message;
    }
    TrimIsTrimmed(message);
    message := TrimSpace(message);
  }

  /** So a notice for a rule with words names at least one host. */
  lemma NoticeNamesAHost(cfg: Config, h: Header, rq: Engine.Request, rule: AgentRule, answer: Option<Vars.User>,
          now: int)
    requires Usable(cfg) && TrimSpace(rule.message) != []
    ensures var lines := Split(MessageFor(cfg, h, rq, rule, answer, now), NEWLINE);
      && (exists i :: 0 <= i < |lines| && TrimSpace(lines[i]) != [])
      && Placeholder.UniqueNames(lines) != []
  {
    hide TrimSpace, Engine.Message, Split, Placeholder.UniqueNames, Engine.Vars.Configured;
    var message := MessageFor(cfg, h, rq, rule, answer, now);
    var rendered := if cfg.engine.None? then rule.message
                    else Engine.Message(cfg.engine.value, cfg.fetching, h, rq, rule.message, answer, now);
    TrimIsTrimmed(rule.message);
    TrimIsTrimmed(rendered);
    Lines.SomeLineShows(message);
    var lines := Split(message, NEWLINE);
    var i :| 0 <= i < |lines| && !Lines.Blank(lines[i]);
    assert TrimSpace(lines[i]) != [];
    Placeholder.UniqueNotEmpty(lines);
  }

  /** The fallback when the body does not name its own format. */
  function FormatFor(clientType: Bytes): Format {
    if clientType == "json" || clientType == "v2ray-json" then Xray
    else if clientType == "singbox" then Singbox
    else if clientType == "clash" || clientType == "mihomo" || clientType == "stash" then Clash
    else LinkList
  }

  function NoticeBody(cfg: Config, format: Format, message: Bytes): Bytes {
    var names := Placeholder.UniqueNames(Split(message, NEWLINE));
    if format == Xray || format == Singbox || format == Clash then cfg.trees(format, names)
    else Placeholder.PlaceholderLinks(names)
  }

  method BuildNotice(cfg: Config, format: Format, message: Bytes) returns (body: Bytes)
    ensures body == NoticeBody(cfg, format, message)
  {
    hide Placeholder.UniqueNames, Placeholder.PlaceholderLinks, Split;
    var lines := Split(message, NEWLINE);
    match format {
      case Unknown => body := Placeholder.BuildLinks(lines);
      case LinkList => body := Placeholder.BuildLinks(lines);
      case _ =>
        var names := Placeholder.CollectNames(lines);
        body := cfg.trees(format, names);
    }
  }

  function Announced(h: Header, rule: AgentRule, message: Bytes): Header {
    if rule.announce then Set(h, ANNOUNCE, Codec.Encode(message, Codec.Base64Prefixed)) else h
  }

  function Sniffed(cfg: Config, r: Reply): Format {
    if !IsCompressed(cfg, r.header) && Fits(r, MAX_SHUFFLE) then Sniff(r.payload.unread) else Unknown
  }

  /** What the body is, or else what the client type stands for. */
  function NoticeFormat(cfg: Config, info: Info, r: Reply): Format {
    var sniffed := Sniffed(cfg, r);
    if sniffed != Unknown then sniffed else FormatFor(info.rq.clientType)
  }

  /** Headers stay, so the app still shows traffic and expiry; error answers pass. */
  function AfterNotice(cfg: Config, info: Info, rule: AgentRule, message: Bytes, r: Reply): Reply {
    if !Rewritable(cfg, r.status, r.header) then r
    else
      var body := NoticeBody(cfg, NoticeFormat(cfg, info, r), message);
      var plain := WithBody(r.(header := Del(Del(r.header, CONTENT_ENCODING), ETAG)), body);
      plain.(header := Announced(plain.header, rule, message))
  }

  /** The body names its own format, if it can be read. */
  method SniffBody(cfg: Config, resp: Response) returns (sniffed: Format)
    requires resp.Valid()
    modifies resp`body, Readers(resp.body)
    ensures resp.Valid() && fresh(Readers(resp.body) - old(Readers(resp.body)))
    ensures Seen(resp) == old(Seen(resp))
    ensures sniffed == Sniffed(cfg, old(Seen(resp)))
  {
    hide Seen, Unread, Broken, Sound, IsHTML, IsCompressed, Rewritable, Fits, WithBody, Decimal, Sniff, Sniffed;
    SniffCases(cfg, Seen(resp));
    sniffed := Unknown;
    if !IsCompressed(cfg, resp.header) {
      var body, ok := Hold(resp, MAX_SHUFFLE);
      if ok {
        sniffed := Sniff(body);
      }
    }
  }

  lemma SniffCases(cfg: Config, r: Reply)
    ensures Fits(r, MAX_SHUFFLE) ==> r.payload.Payload?
    ensures Sniffed(cfg, r) ==
      if !IsCompressed(cfg, r.header) && Fits(r, MAX_SHUFFLE) then Sniff(r.payload.unread) else Unknown
    ensures MAX_SHUFFLE < MAX_INT64
  {
    hide IsCompressed, Sniff;
  }

  method ApplyNotice(cfg: Config, info: Info, rule: AgentRule, message: Bytes, resp: Response)
    requires resp.Valid()
    modifies resp, Readers(resp.body)
    ensures resp.Valid() && fresh(Readers(resp.body) - old(Readers(resp.body)))
    ensures Seen(resp) == AfterNotice(cfg, info, rule, message, old(Seen(resp)))
  {
    hide Seen, Unread, Broken, Sound, IsHTML, IsCompressed, Rewritable, Fits, WithBody, Decimal, Canonical, Del,
      Sniff, Sniffed, FormatFor, NoticeBody, Announced, AfterNotice;
    NoticeCases(cfg, info, rule, message, Seen(resp));
    if !Rewritable(cfg, resp.status, resp.header) {
      return;
    }
    var format := FormatFor(info.rq.clientType);
    var sniffed := SniffBody(cfg, resp);
    if sniffed != Unknown {
      format := sniffed;
    }
    SetHeader(resp, Del(resp.header, CONTENT_ENCODING));
    SetHeader(resp, Del(resp.header, ETAG));
    var notice := BuildNotice(cfg, format, message);
    Replace(resp, notice);
    SetHeader(resp, Announced(resp.header, rule, message));
  }

  method SetHeader(resp: Response, header: Header)
    requires resp.Valid()
    modifies resp`header
    ensures resp.Valid() && Seen(resp) == old(Seen(resp)).(header := header)
  {
    resp.header := header;
  }

  lemma NoticeCases(cfg: Config, info: Info, rule: AgentRule, message: Bytes, r: Reply)
    ensures AfterNotice(cfg, info, rule, message, r) ==
      if !Rewritable(cfg, r.status, r.header) then r
      else
        var format := if Sniffed(cfg, r) != Unknown then Sniffed(cfg, r) else FormatFor(info.rq.clientType);
        var body := NoticeBody(cfg, format, message);
        var plain := WithBody(r.(header := Del(r.header, CONTENT_ENCODING)).(header := Del(Del(r.header, CONTENT_ENCODING), ETAG)), body);
        plain.(header := Announced(plain.header, rule, message))
  {
    hide Rewritable, Sniffed, FormatFor, NoticeBody, Del, WithBody, Announced;
  }

  // ---------- the response stages in order ----------

  /** What the stages read besides the response: the panel's answers and the
      clock for the message and for the rewriting, and one outcome of the shuffler. */
  datatype World = World(
    told: Option<Vars.User>, toldAt: int, answer: Option<Vars.User>, answeredAt: int, shuffler: Shuffler)

  ghost function Headed(cfg: Config, info: Info, world: World, r: Reply): Reply
    requires Usable(cfg)
  {
    if Rewrites(cfg) then
      r.(header := Engine.Applied(cfg.engine.value, cfg.fetching, r.header, info.rq, world.answer, world.answeredAt))
    else r
  }

  /** What the upstream's own response becomes. */
  ghost function Own(cfg: Config, info: Info, world: World, r: Reply): Reply
    requires Usable(cfg)
  {
    var headed := Headed(cfg, info, world, r);
    if info.notice.Some? then
      var message := MessageFor(cfg, r.header, info.rq, info.notice.value, world.told, world.toldAt);
      AfterNotice(cfg, info, info.notice.value, message, headed)
    else AfterShuffle(cfg, info, world.shuffler, headed)
  }

  /** What the client gets for a response of the upstream, given what the cache held. */
  ghost function Served(cfg: Config, info: Info, world: World, hit: Option<SubCache.Entry>, r: Reply): Reply
    requires Usable(cfg)
  {
    if r.status >= 500 && hit.Some? then AfterShuffle(cfg, info, world.shuffler, ReplayOf(hit.value))
    else Own(cfg, info, world, r)
  }

  method RewriteHeader(cfg: Config, info: Info, world: World, resp: Response)
    requires Usable(cfg) && resp.Valid() && AllCanonical(resp.header)
    modifies resp`header
    ensures resp.Valid() && Seen(resp) == Headed(cfg, info, world, old(Seen(resp)))
  {
    hide Engine.Applied, AllCanonical, Engine.Asks, Engine.Prepared, Engine.UserInfoOf, Vars.Configured;
    if Rewrites(cfg) {
      var asked := Engine.Apply(cfg.engine.value, cfg.fetching, resp, info.rq, world.answer, world.answeredAt);
    }
  }

  /** The upstream's own response: rewritten, then annotated, or shuffled and
      perhaps kept. Under a notice nothing is kept. */
  method HandleOwn(cfg: Config, info: Info, world: World, resp: Response, cache: SubCache.Cache?, storedAt: int,
          now: int)
    requires Usable(cfg) && resp.Valid() && AllCanonical(resp.header) && Backs(cfg, cache)
    modifies resp, Readers(resp.body), cache
    ensures resp.Valid() && Backs(cfg, cache)
    ensures Seen(resp) == Own(cfg, info, world, old(Seen(resp)))
    ensures var own := Own(cfg, info, world, old(Seen(resp)));
      if Keeps(cfg, info, own) && info.notice.None? then
        SubCache.PutLeaves(cfg.cache.value, old(EntriesOf(cache)), info.cacheKey, EntryOf(own, storedAt), now, EntriesOf(cache))
      else EntriesOf(cache) == old(EntriesOf(cache))
  {
    hide Seen, Unread, Broken, Sound, IsHTML, IsCompressed, Rewritable, Fits, WithBody, Decimal, Usable, Rewrites,
      Shuffles, AllCanonical, Backs, EntriesOf, Hit, AfterLook, Keeps, SubCache.PutLeaves, EntryOf, ReplayOf,
      Headed, Own, Served, MessageFor, AfterNotice, AfterShuffle, TrimSpace;
    OwnCases(cfg, info, world, Seen(resp));
    if info.notice.Some? {
      var message := NoticeMessage(cfg, resp.header, info.rq, info.notice.value, world.told, world.toldAt);
      RewriteHeader(cfg, info, world, resp);
      ApplyNotice(cfg, info, info.notice.value, message, resp);
      return;
    }
    RewriteHeader(cfg, info, world, resp);
    ShuffleHosts(cfg, info, world.shuffler, resp);
    Store(cfg, info, resp, cache, storedAt, now);
  }

  /** An upstream response on its way to the client: it is replaced from the
      cache, or goes through the stages itself. Only the second way keeps anything. */
  method ModifyResponse(cfg: Config, info: Info, world: World, resp: Response, cache: SubCache.Cache?,
          lookedAt: int, storedAt: int, now: int)
    requires Usable(cfg) && resp.Valid() && AllCanonical(resp.header) && Backs(cfg, cache)
    modifies resp, Readers(resp.body), cache
    ensures resp.Valid() && Backs(cfg, cache)
    ensures Seen(resp) == Served(cfg, info, world, Hit(cfg, info, old(EntriesOf(cache)), lookedAt), old(Seen(resp)))
    ensures var own := Own(cfg, info, world, old(Seen(resp)));
      if Keeps(cfg, info, own) && info.notice.None? then
        SubCache.PutLeaves(cfg.cache.value, old(EntriesOf(cache)), info.cacheKey, EntryOf(own, storedAt), now, EntriesOf(cache))
      else
        EntriesOf(cache) ==
          if old(resp.status) >= 500 then AfterLook(cfg, info, old(EntriesOf(cache)), lookedAt) else old(EntriesOf(cache))
  {
    hide Seen, Unread, Broken, Sound, IsHTML, IsCompressed, Rewritable, Fits, WithBody, Decimal, Usable, Rewrites,
      Shuffles, AllCanonical, Backs, EntriesOf, Hit, AfterLook, Keeps, SubCache.PutLeaves, EntryOf, ReplayOf,
      Headed, Own, Served, MessageFor, AfterNotice, AfterShuffle;
    StatusStays(cfg, info, world, Seen(resp));
    ServedCases(cfg, info, world, Hit(cfg, info, EntriesOf(cache), lookedAt), Seen(resp));
    var replaced := ReplaceWithCache(cfg, info, resp, cache, lookedAt);
    if replaced {
      ShuffleHosts(cfg, info, world.shuffler, resp);
      return;
    }
    HandleOwn(cfg, info, world, resp, cache, storedAt, now);
  }

  lemma ServedCases(cfg: Config, info: Info, world: World, hit: Option<SubCache.Entry>, r: Reply)
    requires Usable(cfg)
    ensures Served(cfg, info, world, hit, r) ==
      if r.status >= 500 && hit.Some? then AfterShuffle(cfg, info, world.shuffler, ReplayOf(hit.value))
      else Own(cfg, info, world, r)
  {
    hide AfterShuffle, Own;
  }

  lemma OwnCases(cfg: Config, info: Info, world: World, r: Reply)
    requires Usable(cfg)
    ensures Own(cfg, info, world, r) ==
      if info.notice.None? then AfterShuffle(cfg, info, world.shuffler, Headed(cfg, info, world, r))
      else AfterNotice(cfg, info, info.notice.value,
                       MessageFor(cfg, r.header, info.rq, info.notice.value, world.told, world.toldAt),
                       Headed(cfg, info, world, r))
  {
    hide AfterNotice, AfterShuffle, Headed, MessageFor;
  }

  lemma StatusStays(cfg: Config, info: Info, world: World, r: Reply)
    requires Usable(cfg)
    ensures Own(cfg, info, world, r).status == r.status
    ensures Keeps(cfg, info, Own(cfg, info, world, r)) ==> r.status == 200
  {
    hide IsHTML, IsCompressed, MessageFor, Engine.Applied;
  }

  // ---------- answers without an upstream response ----------

  /** What the client is sent directly. */
  class Writer {
    var header: Header
    var status: Option<int>
    var written: Bytes

    constructor ()
      ensures header == map[] && status == None && written == []
    {
      header, status, written := map[], None, [];
    }

    method WriteBody(code: int, body: Bytes)
      modifies this
      ensures header == old(header)[CONTENT_LENGTH := [Decimal(|body|)]]
      ensures status == Some(code) && written == old(written) + body
    {
      header := header[CONTENT_LENGTH := [Decimal(|body|)]];
      status := Some(code);
      written := written + body;
    }

    /** Copies every field of the stored header, in any order. */
    method CopyHeader(from: Header)
      modifies this`header
      ensures header == old(header) + from
    {
      var keys := from.Keys;
      while keys != {}
        invariant keys <= from.Keys
        invariant header == old(header) + (from - keys)
        decreases |keys|
      {
        var key :| key in keys;
        header := header[key := from[key]];
        keys := keys - {key};
      }
      assert from - {} == from;
    }
  }

  /** The fallback sent when the upstream could not be reached: like a replay of
      the response, but shuffled whatever its size. */
  function Fallback(cfg: Config, info: Info, shuffler: Shuffler, before: Header, e: SubCache.Entry): Reply {
    var header := before + e.header;
    var body := if Shuffles(cfg, info) && !IsCompressed(cfg, header) then shuffler(e.body).0 else e.body;
    WithBody(Reply(e.status, header, Missing), body)
  }

  method WriteFromCache(cfg: Config, info: Info, shuffler: Shuffler, w: Writer, cache: SubCache.Cache?,
          now: int) returns (served: bool)
    requires Backs(cfg, cache) && w.written == []
    modifies w, cache
    ensures Backs(cfg, cache) && EntriesOf(cache) == AfterLook(cfg, info, old(EntriesOf(cache)), now)
    ensures served <==> Hit(cfg, info, old(EntriesOf(cache)), now).Some?
    ensures !served ==> unchanged(w)
    ensures served ==>
      var reply := Fallback(cfg, info, shuffler, old(w.header), Hit(cfg, info, old(EntriesOf(cache)), now).value);
      w.status == Some(reply.status) && w.header == reply.header && w.written == reply.payload.unread
  {
    hide Shuffles, IsCompressed, Hit, AfterLook, Backs, Decimal;
    var entry := Cached(cfg, info, cache, now);
    if entry.None? {
      return false;
    }
    w.CopyHeader(entry.value.header);
    var body := entry.value.body;
    if Shuffles(cfg, info) && !IsCompressed(cfg, w.header) {
      body := shuffler(body).0;
    }
    w.WriteBody(entry.value.status, body);
    served := true;
  }

  /** Nothing for a client that has gone, the fallback if there is one, or else 502. */
  method HandleError(cfg: Config, info: Option<Info>, canceled: bool, shuffler: Shuffler, w: Writer,
          cache: SubCache.Cache?, now: int)
    requires Backs(cfg, cache) && w.written == []
    modifies w, cache
    ensures Backs(cfg, cache)
    ensures canceled ==> unchanged(w) && EntriesOf(cache) == old(EntriesOf(cache))
    ensures !canceled ==>
      var hit := if info.None? then None else Hit(cfg, info.value, old(EntriesOf(cache)), now);
      && EntriesOf(cache) == (if info.None? then old(EntriesOf(cache)) else AfterLook(cfg, info.value, old(EntriesOf(cache)), now))
      && (hit.None? ==> w.status == Some(502) && w.header == old(w.header) && w.written == [])
      && (hit.Some? ==>
            var reply := Fallback(cfg, info.value, shuffler, old(w.header), hit.value);
            w.status == Some(reply.status) && w.header == reply.header && w.written == reply.payload.unread)
  {
    hide Fallback, Hit, AfterLook, Backs;
    if canceled {
      return;
    }
    if info.Some? {
      var served := WriteFromCache(cfg, info.value, shuffler, w, cache, now);
      if served {
        return;
      }
    }
    w.status := Some(502);
  }

  function ContentTypeFor(format: Format): Bytes {
    match format
    case Xray => "application/json; " + UTF8
    case Singbox => "application/json; " + UTF8
    case Clash => "text/yaml; " + UTF8
    case _ => "text/plain; " + UTF8
  }

  const UTF8: Bytes := "charset=utf-8"
  const CACHE_CONTROL: Bytes := "Cache-Control"
  const NO_STORE: Bytes := "no-store"

  /** Answers a broken user agent without forwarding it. */
  method WriteBlock(cfg: Config, rq: Engine.Request, rule: AgentRule, answer: Option<Vars.User>, now: int, w: Writer)
    requires Usable(cfg) && w.written == []
    modifies w
    ensures var format := FormatFor(rq.clientType);
      var message := MessageFor(cfg, map[], rq, rule, answer, now);
      var body := NoticeBody(cfg, format, message);
      && w.status == Some(200) && w.written == body
      && w.header == Announced(Set(Set(old(w.header), CONTENT_TYPE, ContentTypeFor(format)), CACHE_CONTROL, NO_STORE), rule, message)
                       [CONTENT_LENGTH := [Decimal(|body|)]]
  {
    hide Usable, FormatFor, MessageFor, NoticeBody, Announced, Set, Decimal, ContentTypeFor;
    var message := NoticeMessage(cfg, map[], rq, rule, answer, now);
    var format := FormatFor(rq.clientType);
    w.header := Set(w.header, CONTENT_TYPE, ContentTypeFor(format));
    w.header := Set(w.header, CACHE_CONTROL, NO_STORE);
    w.header := Announced(w.header, rule, message);
    var body := BuildNotice(cfg, format, message);
    w.WriteBody(200, body);
  }

  // ---------- what a notice says ----------

  /** A link-list client reads the notice back as hosts: its names are the lines
      of the message, trimmed and each once, and the stated length is the body's. */
  lemma NoticeIsRead(cfg: Config, info: Info, rule: AgentRule, message: Bytes, r: Reply, ps: Links.PsReader)
    requires Rewritable(cfg, r.status, r.header) && NoticeFormat(cfg, info, r) == LinkList
    requires exists i :: 0 <= i < |Split(message, NEWLINE)| && TrimSpace(Split(message, NEWLINE)[i]) != []
    ensures var out := AfterNotice(cfg, info, rule, message, r);
      && out.status == r.status && out.payload.Payload?
      && Sniff(out.payload.unread) == LinkList
      && Links.DecodeList(out.payload.unread).Some?
      && Links.NamesOf(Split(Links.DecodeList(out.payload.unread).value.0, NEWLINE), ps)
         == Placeholder.UniqueNames(Split(message, NEWLINE))
      && Field(out.header, CONTENT_LENGTH) == Some([Decimal(|out.payload.unread|)])
  {
    hide Split, TrimSpace, Rewritable, NoticeFormat, Sniff, Decimal, Del, Codec.Encode, Canonical,
      Placeholder.UniqueNames, Placeholder.PlaceholderLinks, Links.DecodeList, Links.NamesOf;
    Placeholder.PlaceholderReadsBack(Split(message, NEWLINE), ps);
    AnnounceIsNoLength();
  }

  lemma AnnounceIsNoLength()
    ensures Canonical(ANNOUNCE) != CONTENT_LENGTH
  {
    hide Cased, IsToken;
    assert |Canonical(ANNOUNCE)| == |ANNOUNCE| != |CONTENT_LENGTH|;
  }
}
