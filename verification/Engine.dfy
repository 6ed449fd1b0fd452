/** The header rewriting engine: rules in order of priority, then any header that
    holds a placeholder, with the panel asked only when something needs it. */
module Engine {
  import opened Strings
  import opened Headers
  import opened Numbers
  import Body
  import Codec
  import Tmpl
  import UserInfo
  import Vars

  datatype Encoding = AsFound | Unencoded | InBase64 | InPrefixedBase64

  datatype Condition = Condition(
    clientTypes: seq<Bytes>, userStatuses: seq<Bytes>, userAgent: Option<Bytes -> bool>,
    exists_: Option<bool>, hasTrafficLimit: Option<bool>)

  datatype Rule = Rule(
    name: Bytes, template: Option<Bytes>, encode: Encoding, remove: bool, when: Condition, maxLength: int)

  datatype Config = Config(
    rules: seq<Rule>, scanAll: bool, decodeBase64: bool, forceUnlimited: bool,
    resolver: Vars.Resolver, unknown: Tmpl.Unknown, casing: Tmpl.Casing)

  /** Whether there is a panel to ask, and whether to ask it even when nothing needs it. */
  datatype Fetching = Fetching(available: bool, always: bool)

  datatype Request = Request(
    shortUUID: Bytes, clientType: Bytes, userAgent: Bytes, clientIP: Bytes, subscriptionURL: Bytes)

  /** What the rules are matched against before the panel is asked. */
  datatype View = View(config: Config, header: Header, rq: Request)

  /** Everything one rewriting depends on: info is the panel's answer, if it gave one. */
  datatype Call = Call(view: View, userInfo: Option<UserInfo.Info>, info: Option<Vars.User>, now: int)

  datatype Candidate = Candidate(
    name: Bytes, source: Bytes, form: Codec.Form, remove: bool, rule: Option<Rule>, original: Option<Bytes>)

  const ORIGINAL: Bytes := "ORIGINAL_VALUE"

  const USER_INFO: Bytes := "subscription-userinfo"

  predicate Usable(config: Config) {
    Vars.Configured(config.resolver.format)
  }

  // ---------- candidates ----------

  predicate MatchesRequest(config: Config, when: Condition, rq: Request, present: bool) {
    && (when.exists_.Some? ==> when.exists_.value == present)
    && (when.clientTypes != [] ==> config.casing.lower(rq.clientType) in when.clientTypes)
    && (when.userAgent.Some? ==> when.userAgent.value(rq.userAgent))
  }

  function Override(detected: Codec.Form, encode: Encoding): Codec.Form {
    match encode
    case Unencoded => Codec.Plain
    case InBase64 => Codec.Base64Bare
    case InPrefixedBase64 => Codec.Base64Prefixed
    case AsFound => detected
  }

  /** The value as placeholders see it, the wrapping detected, and whether it was taken off. */
  function Text(config: Config, current: Bytes): (Bytes, Codec.Form, bool) {
    match Codec.DecodeBase64(current)
    case None => (current, Codec.Plain, false)
    case Some((decoded, form)) => if config.decodeBase64 then (decoded, form, true) else (current, form, false)
  }

  function CandidateFor(config: Config, name: Bytes, current: Option<Bytes>, rule: Option<Rule>): (c: Option<Candidate>)
    ensures c.Some? ==> c.value.name == name && c.value.rule == rule && !c.value.remove
  {
    var encode := if rule.Some? then rule.value.encode else AsFound;
    var (text, form, unwrapped) := if current.Some? then Text(config, current.value) else ([], Codec.Plain, false);
    var original := if current.Some? then Some(text) else None;
    if rule.Some? && rule.value.template.Some? then
      Some(Candidate(name, rule.value.template.value, Override(form, encode), false, rule, original))
    else if current.Some? && Tmpl.HasPlaceholder(text) then
      Some(Candidate(name, text, Override(if unwrapped then form else Codec.Plain, encode), false, rule, original))
    else None
  }

  /** What a rule wants done, before the panel is asked. */
  function ForRule(v: View, rule: Rule): (c: Option<Candidate>)
    ensures c.Some? ==> c.value.name == rule.name && c.value.rule == Some(rule)
  {
    var current := FirstValue(v.header, rule.name);
    if !MatchesRequest(v.config, rule.when, v.rq, current.Some?) then None
    else if rule.remove then
      if current.Some? then Some(Candidate(rule.name, [], Codec.Plain, true, Some(rule), None)) else None
    else CandidateFor(v.config, rule.name, current, Some(rule))
  }

  predicate HasRule(config: Config, key: Bytes) {
    exists i :: 0 <= i < |config.rules| && Canonical(config.rules[i].name) == key
  }

  /** What scanning wants done with a header no rule names. */
  function ForHeader(v: View, key: Bytes): (c: Option<Candidate>)
    ensures c.Some? ==> c.value.name == key && c.value.rule == None && !c.value.remove && key in v.header
  {
    if v.config.scanAll && key in v.header && v.header[key] != [] && !HasRule(v.config, key) then
      CandidateFor(v.config, key, Some(v.header[key][0]), None)
    else None
  }

  // ---------- conditions that wait for the panel ----------

  function SourceOf(c: Call): Vars.Source {
    var rq := c.view.rq;
    Vars.Source(rq.shortUUID, rq.clientType, rq.userAgent, rq.clientIP, rq.subscriptionURL, c.userInfo, c.info)
  }

  predicate MatchesStatus(casing: Tmpl.Casing, rule: Option<Rule>, info: Option<Vars.User>) {
    rule.Some? && rule.value.when.userStatuses != [] ==>
      info.Some? && casing.upper(info.value.status) in rule.value.when.userStatuses
  }

  predicate MatchesTrafficLimit(rule: Option<Rule>, limit: Option<int>) {
    rule.Some? && rule.value.when.hasTrafficLimit.Some? ==>
      limit.Some? && (limit.value > 0) == rule.value.when.hasTrafficLimit.value
  }

  predicate Passes(c: Call, candidate: Candidate) {
    && MatchesStatus(c.view.config.casing, candidate.rule, c.info)
    && MatchesTrafficLimit(candidate.rule, Vars.Limit(SourceOf(c)))
  }

  // ---------- rendering ----------

  function Base(c: Call): Tmpl.Lookup
    requires Usable(c.view.config)
  {
    (name: Bytes) => Vars.Lookup(c.view.config.resolver, SourceOf(c), c.now, name)
  }

  function RendererOf(c: Call): Tmpl.Renderer
    requires Usable(c.view.config)
  {
    Tmpl.Renderer(Base(c), c.view.config.unknown, c.view.config.casing)
  }

  /** ORIGINAL_VALUE is the original, its own placeholders resolved without ORIGINAL_VALUE. */
  function WithOriginal(base: Tmpl.Renderer, original: Option<Bytes>): Tmpl.Renderer {
    base.(lookup := (name: Bytes) =>
      if name != ORIGINAL then base.lookup(name)
      else if original.None? then None
      else Some(Tmpl.Rendered(base, original.value)))
  }

  function Value(c: Call, candidate: Candidate): Bytes
    requires Usable(c.view.config)
  {
    var rendered := Tmpl.Rendered(WithOriginal(RendererOf(c), candidate.original), candidate.source);
    var short := if candidate.rule.Some? && candidate.rule.value.maxLength > 0
                 then Tmpl.Truncate(rendered, candidate.rule.value.maxLength) else rendered;
    Codec.Encode(short, candidate.form)
  }

  // ---------- the specification, header by header ----------

  predicate Claims(c: Call, i: nat, key: Bytes) {
    var rules := c.view.config.rules;
    && i < |rules| && Canonical(rules[i].name) == key
    && ForRule(c.view, rules[i]).Some? && Passes(c, ForRule(c.view, rules[i]).value)
  }

  /** The first of the first n rules that claims the header. */
  function FirstRule(c: Call, key: Bytes, n: nat): (i: Option<nat>)
    ensures i.Some? ==> i.value < n && Claims(c, i.value, key) && forall j :: 0 <= j < i.value ==> !Claims(c, j, key)
    ensures i.None? ==> forall j :: 0 <= j < n ==> !Claims(c, j, key)
  {
    if n == 0 then None
    else
      var before := FirstRule(c, key, n - 1);
      if before.Some? then before else if Claims(c, n - 1, key) then Some(n - 1) else None
  }

  /** What decides over a header: the first rule that claims it; with no rule naming it, the scan. */
  function Deciding(c: Call, key: Bytes): Option<Candidate> {
    var first := FirstRule(c, key, |c.view.config.rules|);
    if first.Some? then ForRule(c.view, c.view.config.rules[first.value]) else ForHeader(c.view, key)
  }

  function Settled(c: Call, decision: Option<Candidate>, key: Bytes): Option<seq<Bytes>>
    requires Usable(c.view.config)
  {
    if decision.None? then Field(c.view.header, key)
    else if decision.value.remove then None
    else Some([Value(c, decision.value)])
  }

  function RuleKeys(config: Config): set<Bytes> {
    set i | 0 <= i < |config.rules| :: Canonical(config.rules[i].name)
  }

  lemma OnlyTheseChange(c: Call, key: Bytes)
    requires Usable(c.view.config) && Settled(c, Deciding(c, key), key).Some?
    ensures key in c.view.header.Keys + RuleKeys(c.view.config)
  {
    hide ForRule, ForHeader, Passes, Value, Canonical;
  }

  /** The header as it must come out, each field on its own. */
  function Rewritten(c: Call): (h: Header)
    requires Usable(c.view.config)
    ensures forall k :: Field(h, k) == Settled(c, Deciding(c, k), k)
  {
    hide *;
    var h := map k | k in c.view.header.Keys + RuleKeys(c.view.config) && Settled(c, Deciding(c, k), k).Some?
               :: Settled(c, Deciding(c, k), k).value;
    assert forall k :: Field(h, k) == Settled(c, Deciding(c, k), k) by {
      forall k ensures Field(h, k) == Settled(c, Deciding(c, k), k) {
        if Settled(c, Deciding(c, k), k).Some? {
          OnlyTheseChange(c, k);
        }
        FieldIs(h, k);
      }
    }
    h
  }

  // ---------- collecting ----------

  /** The candidates of the first n rules, in order. */
  function RulePart(v: View, n: nat): seq<Candidate>
    requires n <= |v.config.rules|
  {
    if n == 0 then []
    else
      var c := ForRule(v, v.config.rules[n - 1]);
      RulePart(v, n - 1) + if c.Some? then [c.value] else []
  }

  /** The candidates scanning finds, in the order the keys are met. */
  function ScanPart(v: View, order: seq<Bytes>): seq<Candidate> {
    if order == [] then []
    else
      var c := ForHeader(v, order[|order| - 1]);
      ScanPart(v, order[..|order| - 1]) + if c.Some? then [c.value] else []
  }

  /** Some order in which a map's keys can be met. */
  ghost predicate Visits(order: seq<Bytes>, keys: set<Bytes>) {
    forall k :: k in order <==> k in keys
  }

  ghost predicate Collected(v: View, candidates: seq<Candidate>, order: seq<Bytes>) {
    Visits(order, v.header.Keys) && candidates == RulePart(v, |v.config.rules|) + ScanPart(v, order)
  }

  lemma ScanPartSnoc(v: View, order: seq<Bytes>, key: Bytes)
    ensures ScanPart(v, order + [key]) ==
      ScanPart(v, order) + if ForHeader(v, key).Some? then [ForHeader(v, key).value] else []
  {
    hide ForHeader;
    assert (order + [key])[..|order|] == order;
  }

  lemma {:induction false} NothingScanned(v: View, order: seq<Bytes>)
    requires !v.config.scanAll
    ensures ScanPart(v, order) == []
  {
    if order != [] {
      NothingScanned(v, order[..|order| - 1]);
    }
  }

  method ListKeys(keys: set<Bytes>) returns (order: seq<Bytes>)
    ensures Visits(order, keys)
  {
    order := [];
    var left := keys;
    while left != {}
      invariant left <= keys
      invariant forall k :: k in order <==> k in keys && k !in left
      decreases |left|
    {
      var key :| key in left;
      order := order + [key];
      left := left - {key};
    }
  }

  /** Explicit rules first, then any header holding a placeholder, in any order. */
  method Collect(v: View) returns (candidates: seq<Candidate>)
    ensures exists order :: Collected(v, candidates, order)
  {
    hide MatchesRequest, CandidateFor, Canonical, Visits, ForRule, ForHeader, ScanPart;
    candidates := [];
    var handled: set<Bytes> := {};
    for i := 0 to |v.config.rules|
      invariant candidates == RulePart(v, i)
      invariant forall k :: k in handled <==> exists j :: 0 <= j < i && Canonical(v.config.rules[j].name) == k
    {
      var rule := v.config.rules[i];
      handled := handled + {Canonical(rule.name)};
      var c := CandidateOf(v, rule);
      if c.Some? {
        candidates := candidates + [c.value];
      }
    }
    var keys := ListKeys(v.header.Keys);
    if v.config.scanAll {
      candidates := Scan(v, handled, keys, candidates);
    } else {
      NothingScanned(v, keys);
    }
    assert Collected(v, candidates, keys);
  }

  method CandidateOf(v: View, rule: Rule) returns (c: Option<Candidate>)
    ensures c == ForRule(v, rule)
  {
    hide MatchesRequest, CandidateFor, FirstValue;
    var current := FirstValue(v.header, rule.name);
    if !MatchesRequest(v.config, rule.when, v.rq, current.Some?) {
      return None;
    }
    if rule.remove {
      return if current.Some? then Some(Candidate(rule.name, [], Codec.Plain, true, Some(rule), None)) else None;
    }
    c := CandidateFor(v.config, rule.name, current, Some(rule));
  }

  method Scan(v: View, handled: set<Bytes>, keys: seq<Bytes>, before: seq<Candidate>)
    returns (candidates: seq<Candidate>)
    requires v.config.scanAll && Visits(keys, v.header.Keys)
    requires forall k :: k in handled <==> HasRule(v.config, k)
    ensures candidates == before + ScanPart(v, keys)
  {
    hide CandidateFor, ScanPart, HasRule;
    candidates := before;
    NoneScanned(v);
    for i := 0 to |keys|
      invariant candidates == before + ScanPart(v, keys[..i])
    {
      var key := keys[i];
      ScanPartSnoc(v, keys[..i], key);
      assert keys[..i + 1] == keys[..i] + [key];
      assert key in keys;
      if key in handled || v.header[key] == [] {
        continue;
      }
      var c := CandidateFor(v.config, key, Some(v.header[key][0]), None);
      if c.Some? {
        candidates := candidates + [c.value];
      }
    }
    assert keys[..|keys|] == keys;
  }

  lemma NoneScanned(v: View)
    ensures ScanPart(v, []) == []
  {}

  // ---------- from the list of candidates to the headers ----------

  /** The first candidate for the header whose late conditions hold. */
  function Winner(c: Call, candidates: seq<Candidate>, key: Bytes): Option<Candidate> {
    if candidates == [] then None
    else
      var before := Winner(c, candidates[..|candidates| - 1], key);
      var last := candidates[|candidates| - 1];
      if before.Some? then before
      else if Canonical(last.name) == key && Passes(c, last) then Some(last)
      else None
  }

  lemma WinnerSnoc(c: Call, candidates: seq<Candidate>, last: Candidate, key: Bytes)
    ensures Winner(c, candidates + [last], key) ==
      if Winner(c, candidates, key).Some? then Winner(c, candidates, key)
      else if Canonical(last.name) == key && Passes(c, last) then Some(last)
      else None
  {
    hide Passes, Canonical;
    assert (candidates + [last])[..|candidates|] == candidates;
  }

  lemma {:induction false} WinnerOfRules(c: Call, key: Bytes, n: nat)
    requires n <= |c.view.config.rules|
    ensures var first := FirstRule(c, key, n);
      Winner(c, RulePart(c.view, n), key) ==
      if first.Some? then ForRule(c.view, c.view.config.rules[first.value]) else None
  {
    hide ForRule, Passes, Canonical, Winner;
    if n == 0 {
      NoWinner(c, key);
    } else {
      WinnerOfRules(c, key, n - 1);
      var w := ForRule(c.view, c.view.config.rules[n - 1]);
      if w.Some? {
        WinnerSnoc(c, RulePart(c.view, n - 1), w.value, key);
      } else {
        assert RulePart(c.view, n) == RulePart(c.view, n - 1);
      }
    }
  }

  lemma NoWinner(c: Call, key: Bytes)
    ensures Winner(c, [], key) == None
  {}

  lemma ScannedPass(c: Call, key: Bytes)
    ensures ForHeader(c.view, key).Some? ==> Passes(c, ForHeader(c.view, key).value)
  {
    hide ForHeader, SourceOf;
  }

  lemma {:induction false} WinnerOfScan(c: Call, front: seq<Candidate>, order: seq<Bytes>, key: Bytes)
    requires AllCanonical(c.view.header)
    ensures Winner(c, front + ScanPart(c.view, order), key) ==
      if Winner(c, front, key).Some? then Winner(c, front, key)
      else if key in order then ForHeader(c.view, key)
      else None
  {
    hide ForHeader, Passes, Canonical, Winner;
    if order == [] {
      assert front + ScanPart(c.view, order) == front;
    } else {
      var last := order[|order| - 1];
      var less := order[..|order| - 1];
      WinnerOfScan(c, front, less, key);
      assert order == less + [last];
      ScannedPass(c, last);
      var found := ForHeader(c.view, last);
      if found.Some? {
        var shorter := front + ScanPart(c.view, less);
        assert front + ScanPart(c.view, order) == shorter + [found.value];
        WinnerSnoc(c, shorter, found.value, key);
        assert Canonical(last) == last;
      } else {
        assert ScanPart(c.view, order) == ScanPart(c.view, less);
      }
    }
  }

  lemma RuledIsNotScanned(c: Call, key: Bytes)
    ensures ForHeader(c.view, key).Some? ==> key in c.view.header && FirstRule(c, key, |c.view.config.rules|) == None
  {
    hide ForRule, Passes, Canonical, CandidateFor;
  }

  /** In whatever order the scan met the headers, the winner among the candidates is what decides. */
  lemma WinnerDecides(c: Call, candidates: seq<Candidate>, order: seq<Bytes>, key: Bytes)
    requires AllCanonical(c.view.header) && Collected(c.view, candidates, order)
    ensures Winner(c, candidates, key) == Deciding(c, key)
  {
    hide ForRule, ForHeader, Passes, Canonical, Winner, RulePart, ScanPart, FirstRule;
    var n := |c.view.config.rules|;
    WinnerOfRules(c, key, n);
    WinnerOfScan(c, RulePart(c.view, n), order, key);
    RuledIsNotScanned(c, key);
  }

  /** Of the candidates, those in `done` have been applied. */
  ghost predicate Progress(c: Call, done: seq<Candidate>, written: set<Bytes>, h: Header)
    requires Usable(c.view.config)
  {
    && (forall k :: k in written <==> Winner(c, done, k).Some?)
    && (forall k :: Field(h, k) == Settled(c, Winner(c, done, k), k))
  }

  lemma ProgressStarts(c: Call)
    requires Usable(c.view.config)
    ensures Progress(c, [], {}, c.view.header)
  {}

  lemma ProgressSkips(c: Call, done: seq<Candidate>, written: set<Bytes>, h: Header, next: Candidate)
    requires Usable(c.view.config) && Progress(c, done, written, h)
    requires Canonical(next.name) in written || !Passes(c, next)
    ensures Progress(c, done + [next], written, h)
  {
    hide Passes, Canonical, Winner, Settled;
    forall k ensures Winner(c, done + [next], k) == Winner(c, done, k) {
      WinnerSnoc(c, done, next, k);
    }
  }

  lemma ProgressWrites(c: Call, done: seq<Candidate>, written: set<Bytes>, h: Header, next: Candidate)
    requires Usable(c.view.config) && Progress(c, done, written, h)
    requires Canonical(next.name) !in written && Passes(c, next)
    ensures Progress(c, done + [next], written + {Canonical(next.name)},
                     if next.remove then Del(h, next.name) else Set(h, next.name, Value(c, next)))
  {
    hide Passes, Canonical, Winner, Value;
    forall k ensures Winner(c, done + [next], k) == if Canonical(next.name) == k then Some(next) else Winner(c, done, k) {
      WinnerSnoc(c, done, next, k);
    }
  }

  lemma ProgressEnds(c: Call, candidates: seq<Candidate>, order: seq<Bytes>, written: set<Bytes>, h: Header)
    requires Usable(c.view.config) && AllCanonical(c.view.header)
    requires Collected(c.view, candidates, order) && Progress(c, candidates, written, h)
    ensures h == Rewritten(c)
  {
    hide Passes, Canonical, Winner, Value, Deciding, Settled, Collected, Rewritten;
    forall k ensures Field(h, k) == Field(Rewritten(c), k) {
      WinnerDecides(c, candidates, order, k);
    }
    SameFields(h, Rewritten(c));
  }

  lemma SameFields(a: Header, b: Header)
    requires forall k :: Field(a, k) == Field(b, k)
    ensures a == b
  {
    assert forall k :: k in a <==> Field(a, k).Some?;
    assert forall k :: k in b <==> Field(b, k).Some?;
    assert forall k :: k in a ==> a[k] == Field(a, k).value;
    assert forall k :: k in b ==> b[k] == Field(b, k).value;
  }

  // ---------- whether the panel is needed ----------

  predicate NeedsStatus(candidate: Candidate) {
    candidate.rule.Some? && candidate.rule.value.when.userStatuses != []
  }

  predicate NeedsLimit(candidate: Candidate) {
    candidate.rule.Some? && candidate.rule.value.when.hasTrafficLimit.Some?
  }

  /** The names a rendering of the candidate may look up. */
  function NamesUsed(candidate: Candidate): seq<Bytes> {
    if candidate.remove then []
    else
      var used := Tmpl.NamesOf(candidate.source);
      used + if candidate.original.Some? && ORIGINAL in used then Tmpl.NamesOf(candidate.original.value) else []
  }

  /** The candidate needs something only the panel can tell. */
  ghost predicate Wants(config: Config, userInfo: Option<UserInfo.Info>, candidate: Candidate) {
    || NeedsStatus(candidate)
    || (NeedsLimit(candidate) && !Vars.KnowsLimit(userInfo))
    || exists n :: n in NamesUsed(candidate) && Vars.NameNeedsPanel(config.resolver, n, userInfo.Some?)
  }

  ghost predicate AnyWants(config: Config, userInfo: Option<UserInfo.Info>, candidates: seq<Candidate>) {
    exists c :: c in candidates && Wants(config, userInfo, c)
  }

  function AllNames(candidates: seq<Candidate>): seq<Bytes> {
    if candidates == [] then []
    else AllNames(candidates[..|candidates| - 1]) + NamesUsed(candidates[|candidates| - 1])
  }

  lemma {:induction false} AllNamesHolds(candidates: seq<Candidate>, name: Bytes)
    ensures name in AllNames(candidates) <==> exists c :: c in candidates && name in NamesUsed(c)
  {
    hide NamesUsed;
    if candidates != [] {
      var front, last := candidates[..|candidates| - 1], candidates[|candidates| - 1];
      AllNamesHolds(front, name);
      assert candidates == front + [last];
    }
  }

  method CollectNames(candidate: Candidate) returns (names: seq<Bytes>)
    ensures names == NamesUsed(candidate)
  {
    hide Tmpl.NamesOf;
    names := [];
    if !candidate.remove {
      var used := Tmpl.Names(candidate.source);
      names := used;
      if candidate.original.Some? && ORIGINAL in used {
        var inside := Tmpl.Names(candidate.original.value);
        names := names + inside;
      }
    }
  }

  ghost predicate AnyStatus(candidates: seq<Candidate>) {
    exists c :: c in candidates && NeedsStatus(c)
  }

  ghost predicate AnyLimit(candidates: seq<Candidate>) {
    exists c :: c in candidates && NeedsLimit(c)
  }

  lemma NeedsSnoc(candidates: seq<Candidate>, last: Candidate)
    ensures AnyStatus(candidates + [last]) <==> AnyStatus(candidates) || NeedsStatus(last)
    ensures AnyLimit(candidates + [last]) <==> AnyLimit(candidates) || NeedsLimit(last)
    ensures AllNames(candidates + [last]) == AllNames(candidates) + NamesUsed(last)
  {
    hide NeedsStatus, NeedsLimit, NamesUsed;
    var longer := candidates + [last];
    assert longer[..|candidates|] == candidates;
    assert forall c :: c in longer <==> c in candidates || c == last;
  }

  method Survey(config: Config, userInfo: Option<UserInfo.Info>, candidates: seq<Candidate>) returns (needed: bool)
    ensures needed <==> AnyWants(config, userInfo, candidates)
  {
    hide *;
    var names: seq<Bytes> := [];
    var needsStatus, needsLimit := false, false;
    NothingNeeded();
    for i := 0 to |candidates|
      invariant needsStatus <==> AnyStatus(candidates[..i])
      invariant needsLimit <==> AnyLimit(candidates[..i])
      invariant names == AllNames(candidates[..i])
    {
      var c := candidates[i];
      assert candidates[..i + 1] == candidates[..i] + [c];
      NeedsSnoc(candidates[..i], c);
      needsStatus := needsStatus || NeedsStatus(c);
      needsLimit := needsLimit || NeedsLimit(c);
      var used := CollectNames(c);
      names := names + used;
    }
    assert candidates[..|candidates|] == candidates;
    var byName := Vars.NeedsPanel(config.resolver, names, userInfo.Some?);
    needed := needsStatus || (needsLimit && !Vars.KnowsLimit(userInfo)) || byName;
    SurveyIs(config, userInfo, candidates, names);
  }

  lemma NothingNeeded()
    ensures !AnyStatus([]) && !AnyLimit([]) && AllNames([]) == []
  {}

  /** Collecting the needs of all candidates first loses nothing. */
  lemma SurveyIs(config: Config, userInfo: Option<UserInfo.Info>, candidates: seq<Candidate>, names: seq<Bytes>)
    requires names == AllNames(candidates)
    ensures AnyWants(config, userInfo, candidates) <==>
      || AnyStatus(candidates)
      || (AnyLimit(candidates) && !Vars.KnowsLimit(userInfo))
      || (exists i :: 0 <= i < |names| && Vars.NameNeedsPanel(config.resolver, names[i], userInfo.Some?))
  {
    hide NamesUsed, Vars.NameNeedsPanel, NeedsStatus, NeedsLimit, Vars.KnowsLimit, AllNames;
    if i :| 0 <= i < |names| && Vars.NameNeedsPanel(config.resolver, names[i], userInfo.Some?) {
      AllNamesHolds(candidates, names[i]);
    }
    if c, n :| c in candidates && n in NamesUsed(c) && Vars.NameNeedsPanel(config.resolver, n, userInfo.Some?) {
      AllNamesHolds(candidates, n);
    }
  }

  // ---------- applying ----------

  function UserInfoOf(h: Header): Option<UserInfo.Info> {
    var parsed := UserInfo.Parse(Get(h, USER_INFO));
    if parsed.any then Some(parsed.info) else None
  }

  /** The header the candidates are collected from. */
  function Prepared(config: Config, h: Header): Header {
    if config.forceUnlimited && UserInfoOf(h).Some? then Set(h, USER_INFO, UserInfo.Force(Get(h, USER_INFO))) else h
  }

  /** Some rule or scanned header yields this candidate. */
  ghost predicate IsCandidate(v: View, candidate: Candidate) {
    || (exists i :: 0 <= i < |v.config.rules| && ForRule(v, v.config.rules[i]) == Some(candidate))
    || (exists k :: ForHeader(v, k) == Some(candidate))
  }

  ghost predicate Needed(v: View, userInfo: Option<UserInfo.Info>) {
    exists c :: IsCandidate(v, c) && Wants(v.config, userInfo, c)
  }

  /** The panel is asked. */
  ghost predicate Asks(fetching: Fetching, v: View, userInfo: Option<UserInfo.Info>) {
    && fetching.available && v.rq.shortUUID != []
    && (exists c :: IsCandidate(v, c))
    && (fetching.always || Needed(v, userInfo))
  }

  ghost function CallFor(config: Config, fetching: Fetching, h: Header, rq: Request, answer: Option<Vars.User>,
          now: int): Call {
    var v := View(config, Prepared(config, h), rq);
    Call(v, UserInfoOf(h), if Asks(fetching, v, UserInfoOf(h)) then answer else None, now)
  }

  /** What Apply makes of a header when the panel would give this answer. */
  ghost function Applied(config: Config, fetching: Fetching, h: Header, rq: Request, answer: Option<Vars.User>,
          now: int): Header
    requires Usable(config)
  {
    if rq.shortUUID == [] && UserInfoOf(h).None? then h
    else Rewritten(CallFor(config, fetching, h, rq, answer, now))
  }

  lemma {:induction false} RulePartHolds(v: View, n: nat, c: Candidate)
    requires n <= |v.config.rules|
    ensures c in RulePart(v, n) <==> exists i :: 0 <= i < n && ForRule(v, v.config.rules[i]) == Some(c)
  {
    hide ForRule;
    if n > 0 {
      RulePartHolds(v, n - 1, c);
    }
  }

  lemma {:induction false} ScanPartHolds(v: View, order: seq<Bytes>, c: Candidate)
    ensures c in ScanPart(v, order) <==> exists k :: k in order && ForHeader(v, k) == Some(c)
  {
    hide ForHeader;
    if order != [] {
      var less, last := order[..|order| - 1], order[|order| - 1];
      ScanPartHolds(v, less, c);
      assert order == less + [last];
    }
  }

  lemma CollectedAre(v: View, candidates: seq<Candidate>, order: seq<Bytes>, c: Candidate)
    requires Collected(v, candidates, order)
    ensures c in candidates <==> IsCandidate(v, c)
  {
    hide ForHeader, ForRule, RulePart, ScanPart;
    RulePartHolds(v, |v.config.rules|, c);
    ScanPartHolds(v, order, c);
    if k :| ForHeader(v, k) == Some(c) {
      assert k in order;
    }
  }

  lemma CollectedNeeds(v: View, userInfo: Option<UserInfo.Info>, candidates: seq<Candidate>, order: seq<Bytes>)
    requires Collected(v, candidates, order)
    ensures AnyWants(v.config, userInfo, candidates) <==> Needed(v, userInfo)
    ensures candidates != [] <==> exists c :: IsCandidate(v, c)
  {
    hide Collected, IsCandidate, Wants;
    forall c ensures c in candidates <==> IsCandidate(v, c) {
      CollectedAre(v, candidates, order, c);
    }
    if candidates != [] {
      assert candidates[0] in candidates;
    }
  }

  method ReadUserInfo(h: Header) returns (userInfo: Option<UserInfo.Info>)
    ensures userInfo == UserInfoOf(h)
  {
    hide Get;
    var info, any := UserInfo.ParseUserInfo(Get(h, USER_INFO));
    userInfo := if any then Some(info) else None;
  }

  method Prepare(config: Config, userInfo: Option<UserInfo.Info>, resp: Body.Response)
    requires userInfo == UserInfoOf(resp.header) && AllCanonical(resp.header)
    modifies resp`header
    ensures resp.header == Prepared(config, old(resp.header)) && AllCanonical(resp.header)
  {
    hide Get, Set, UserInfoOf, AllCanonical;
    if config.forceUnlimited && userInfo.Some? {
      SetKeepsCanonical(resp.header, USER_INFO, UserInfo.Force(Get(resp.header, USER_INFO)));
      var forced := UserInfo.ForceUnlimitedTotal(Get(resp.header, USER_INFO));
      resp.header := Set(resp.header, USER_INFO, forced);
    }
  }

  /** Per header, the first candidate whose late conditions hold wins. */
  method ApplyEach(c: Call, candidates: seq<Candidate>, ghost order: seq<Bytes>, resp: Body.Response)
    requires Usable(c.view.config) && AllCanonical(c.view.header) && resp.header == c.view.header
    requires Collected(c.view, candidates, order)
    modifies resp`header
    ensures resp.header == Rewritten(c) && AllCanonical(resp.header)
  {
    hide *;
    var written: set<Bytes> := {};
    ProgressStarts(c);
    for i := 0 to |candidates|
      invariant Progress(c, candidates[..i], written, resp.header)
      invariant AllCanonical(resp.header)
    {
      var next := candidates[i];
      assert candidates[..i + 1] == candidates[..i] + [next];
      var key := Canonical(next.name);
      if key in written || !Passes(c, next) {
        ProgressSkips(c, candidates[..i], written, resp.header, next);
        continue;
      }
      ProgressWrites(c, candidates[..i], written, resp.header, next);
      SetKeepsCanonical(resp.header, next.name, Value(c, next));
      written := written + {key};
      if next.remove {
        resp.header := Del(resp.header, next.name);
      } else {
        var rendered := RenderCandidate(c, next);
        resp.header := Set(resp.header, next.name, rendered);
      }
    }
    assert candidates[..|candidates|] == candidates;
    ProgressEnds(c, candidates, order, written, resp.header);
  }

  method RenderCandidate(c: Call, candidate: Candidate) returns (value: Bytes)
    requires Usable(c.view.config)
    ensures value == Value(c, candidate)
  {
    hide RendererOf, WithOriginal, Tmpl.Rendered, Tmpl.Truncate, Codec.Encode;
    var rendered := Tmpl.Render(WithOriginal(RendererOf(c), candidate.original), candidate.source);
    if candidate.rule.Some? && candidate.rule.value.maxLength > 0 {
      rendered := Tmpl.Truncate(rendered, candidate.rule.value.maxLength);
    }
    value := Codec.Encode(rendered, candidate.form);
  }

  /** Rewrites the response's header in place, asking the panel only when
      something needs it. Whatever order the scan meets the headers in, the
      outcome is the one specified field by field. */
  method Apply(config: Config, fetching: Fetching, resp: Body.Response, rq: Request, answer: Option<Vars.User>,
          now: int)
    returns (asked: bool)
    requires Usable(config) && AllCanonical(resp.header)
    modifies resp`header
    ensures resp.header == Applied(config, fetching, old(resp.header), rq, answer, now)
    ensures AllCanonical(resp.header)
    ensures asked <==>
      Asks(fetching, View(config, Prepared(config, old(resp.header)), rq), UserInfoOf(old(resp.header)))
  {
    hide UserInfoOf, Prepared, Rewritten, IsCandidate, Needed, AllCanonical, Collected, Progress;
    var userInfo := ReadUserInfo(resp.header);
    if rq.shortUUID == [] && userInfo.None? {
      return false;
    }
    Prepare(config, userInfo, resp);
    var v := View(config, resp.header, rq);
    var candidates := Collect(v);
    ghost var order :| Collected(v, candidates, order);
    CollectedNeeds(v, userInfo, candidates, order);
    if candidates == [] {
      var unasked := Call(v, userInfo, None, now);
      ProgressStarts(unasked);
      ProgressEnds(unasked, candidates, order, {}, resp.header);
      return false;
    }
    var needed := Survey(config, userInfo, candidates);
    asked := fetching.available && rq.shortUUID != [] && (needed || fetching.always);
    var c := Call(v, userInfo, if asked then answer else None, now);
    ApplyEach(c, candidates, order, resp);
  }

  // ---------- rendering one template ----------

  ghost predicate AsksFor(config: Config, fetching: Fetching, h: Header, rq: Request, template: Bytes) {
    && fetching.available && rq.shortUUID != []
    && (fetching.always || exists n :: n in Tmpl.NamesOf(template) && Vars.NameNeedsPanel(config.resolver, n, UserInfoOf(h).Some?))
  }

  ghost function Message(config: Config, fetching: Fetching, h: Header, rq: Request, template: Bytes,
          answer: Option<Vars.User>, now: int): Bytes
    requires Usable(config)
  {
    var info := if AsksFor(config, fetching, h, rq, template) then answer else None;
    Tmpl.Rendered(RendererOf(Call(View(config, h, rq), UserInfoOf(h), info, now)), template)
  }

  method Render(config: Config, fetching: Fetching, h: Header, rq: Request, template: Bytes,
          answer: Option<Vars.User>, now: int)
    returns (text: Bytes)
    requires Usable(config)
    ensures text == Message(config, fetching, h, rq, template, answer, now)
  {
    hide UserInfoOf, RendererOf, Tmpl.Rendered, Vars.NameNeedsPanel, Tmpl.NamesOf;
    var userInfo := ReadUserInfo(h);
    var names := Tmpl.Names(template);
    var needed := Vars.NeedsPanel(config.resolver, names, userInfo.Some?);
    var asked := fetching.available && rq.shortUUID != [] && (needed || fetching.always);
    var c := Call(View(config, h, rq), userInfo, if asked then answer else None, now);
    text := Tmpl.Render(RendererOf(c), template);
  }

  // ---------- what claims a header ----------

  /** A rule without a template claims the header only when its value holds a
      placeholder, a remove rule only when it is there, any other always. */
  lemma WhatClaims(v: View, rule: Rule)
    ensures var current := FirstValue(v.header, rule.name);
      ForRule(v, rule).Some? <==>
        && MatchesRequest(v.config, rule.when, v.rq, current.Some?)
        && if rule.remove then current.Some?
           else rule.template.Some? ||
                (current.Some? && exists m :: Tmpl.Matches(Text(v.config, current.value).0, m))
  {
    hide MatchesRequest, Text, Tmpl.FindAll, Tmpl.Matches, FirstValue, Tmpl.NamesOf;
    var current := FirstValue(v.header, rule.name);
    if current.Some? {
      Tmpl.ContainsIffNames(Text(v.config, current.value).0);
    }
  }

  /** No rule names the header, and its first value holds nothing to scan for. */
  predicate Unclaimed(config: Config, h: Header, key: Bytes) {
    && !HasRule(config, key)
    && (config.scanAll && key in h && h[key] != [] ==> !Tmpl.HasPlaceholder(Text(config, h[key][0]).0))
  }

  lemma NothingDecides(c: Call, key: Bytes)
    requires Unclaimed(c.view.config, c.view.header, key)
    ensures Deciding(c, key) == None
  {
    hide ForRule, Passes, Canonical, Text, Tmpl.HasPlaceholder;
  }

  lemma PreparedKeeps(config: Config, h: Header, key: Bytes)
    requires config.forceUnlimited ==> key != Canonical(USER_INFO)
    ensures Field(Prepared(config, h), key) == Field(h, key)
  {
    hide Canonical, UserInfoOf, UserInfo.Force, Get;
  }

  lemma UnclaimedStays(config: Config, h: Header, h': Header, key: Bytes)
    requires Unclaimed(config, h, key) && Field(h', key) == Field(h, key)
    ensures Unclaimed(config, h', key)
  {
    hide HasRule, Text, Tmpl.HasPlaceholder;
  }

  /** Such a header comes out as it went in. */
  lemma OthersAreKept(config: Config, fetching: Fetching, h: Header, rq: Request, answer: Option<Vars.User>,
          now: int, key: Bytes)
    requires Usable(config) && Unclaimed(config, h, key)
    requires config.forceUnlimited ==> key != Canonical(USER_INFO)
    ensures Field(Applied(config, fetching, h, rq, answer, now), key) == Field(h, key)
  {
    hide Usable, Unclaimed, Deciding, Field, UserInfoOf, Prepared, Asks, Rewritten, Value;
    PreparedKeeps(config, h, key);
    UnclaimedStays(config, h, Prepared(config, h), key);
    NothingDecides(CallFor(config, fetching, h, rq, answer, now), key);
  }

  /** force_unlimited hides the quota from the client, and nothing else the header says. */
  lemma ForcedIsUnlimited(config: Config, h: Header)
    requires config.forceUnlimited && UserInfoOf(h).Some?
    ensures UserInfoOf(Prepared(config, h)) == Some(UserInfoOf(h).value.(total := 0))
  {
    hide UserInfo.Parse, UserInfo.Force, Get, Set;
    SetIsRead(h, USER_INFO, UserInfo.Force(Get(h, USER_INFO)));
    UserInfo.ForcedParses(Get(h, USER_INFO));
  }

  // ---------- what is written ----------

  /** The rendered text before it is wrapped. */
  function Shown(c: Call, candidate: Candidate): Bytes
    requires Usable(c.view.config)
  {
    var rendered := Tmpl.Rendered(WithOriginal(RendererOf(c), candidate.original), candidate.source);
    if candidate.rule.Some? && candidate.rule.value.maxLength > 0
    then Tmpl.Truncate(rendered, candidate.rule.value.maxLength) else rendered
  }

  /** A client that unwraps the written header sees the rendered text, in at most max_length runes. */
  lemma WrittenReadsBack(c: Call, candidate: Candidate)
    requires Usable(c.view.config)
    ensures candidate.form == Codec.Plain ==> Value(c, candidate) == Shown(c, candidate)
    ensures candidate.form != Codec.Plain && Codec.IsText(Shown(c, candidate)) ==>
      Codec.DecodeBase64(Value(c, candidate)) == Some((Shown(c, candidate), candidate.form))
    ensures candidate.rule.Some? && candidate.rule.value.maxLength > 0 ==>
      |Tmpl.Runes(Shown(c, candidate))| <= candidate.rule.value.maxLength
  {
    hide Tmpl.Rendered, Tmpl.Truncate, Tmpl.Runes, RendererOf, WithOriginal, Codec.IsText, Codec.DecodeBase64,
      Codec.Encode;
    var rendered := Tmpl.Rendered(WithOriginal(RendererOf(c), candidate.original), candidate.source);
    var shown := Shown(c, candidate);
    if candidate.rule.Some? && candidate.rule.value.maxLength > 0 {
      Tmpl.TruncateFits(rendered, candidate.rule.value.maxLength);
    }
    EncodePlain(shown);
    if candidate.form != Codec.Plain && Codec.IsText(shown) {
      Codec.DecodeInvertsEncode(shown, candidate.form);
    }
  }

  lemma EncodePlain(text: Bytes)
    ensures Codec.Encode(text, Codec.Plain) == text
  {}

  /** A wrapped header whose placeholders are filled in keeps its wrapping, and
      one that must not be unwrapped is rewritten as plain text. */
  lemma WrappingIsKept(v: View, key: Bytes)
    requires ForHeader(v, key).Some?
    ensures var w := ForHeader(v, key).value;
      var current := v.header[key][0];
      var found := Codec.DecodeBase64(current);
      if v.config.decodeBase64 && found.Some? then w.source == found.value.0 && w.form == found.value.1
      else w.source == current && w.form == Codec.Plain
  {
    hide Codec.DecodeBase64, Tmpl.HasPlaceholder, HasRule;
  }
}
