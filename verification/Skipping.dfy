/** Whether skipping the panel can be told from asking it. */
module Skipping {
  import opened Strings
  import opened Headers
  import opened Numbers
  import opened Engine
  import Codec
  import Tmpl
  import UserInfo
  import Vars

  predicate NotDaysLeft(config: Config, name: Bytes) {
    name in config.resolver.custom || Vars.Known(name) != Some(Vars.DaysLeft)
  }

  /** The header settles every traffic value there is to ask for. */
  predicate HeaderSuffices(userInfo: Option<UserInfo.Info>) {
    userInfo.Some? ==> Vars.Complete(userInfo.value)
  }

  lemma BlindRender(c: Call, a: Option<Vars.User>, b: Option<Vars.User>, text: Bytes)
    requires Usable(c.view.config) && HeaderSuffices(c.userInfo)
    requires forall n :: n in Tmpl.NamesOf(text) ==>
      !Vars.NameNeedsPanel(c.view.config.resolver, n, c.userInfo.Some?) && NotDaysLeft(c.view.config, n)
    ensures Tmpl.Rendered(RendererOf(c.(info := a)), text) == Tmpl.Rendered(RendererOf(c.(info := b)), text)
  {
    hide Vars.NameNeedsPanel, Vars.Known, Vars.Complete, Vars.Lookup, Tmpl.Rendered, Tmpl.NamesOf;
    var r, q := RendererOf(c.(info := a)), RendererOf(c.(info := b));
    forall n | n in Tmpl.NamesOf(text) ensures r.lookup(n) == q.lookup(n) {
      BlindLookup(c, a, b, n);
    }
    Tmpl.RenderUsesNamesOnly(r, q, text);
  }

  lemma BlindLookup(c: Call, a: Option<Vars.User>, b: Option<Vars.User>, n: Bytes)
    requires Usable(c.view.config) && HeaderSuffices(c.userInfo)
    requires !Vars.NameNeedsPanel(c.view.config.resolver, n, c.userInfo.Some?) && NotDaysLeft(c.view.config, n)
    ensures Base(c.(info := a))(n) == Base(c.(info := b))(n)
  {
    hide Vars.NameNeedsPanel, Vars.Known, Vars.Complete, Vars.Lookup;
    Vars.SkippedLookupIsBlind(c.view.config.resolver, SourceOf(c), c.now, n, a, b);
  }

  predicate AvoidsDaysLeft(config: Config, candidate: Candidate) {
    forall n :: n in NamesUsed(candidate) ==> NotDaysLeft(config, n)
  }

  lemma BlindValue(c: Call, a: Option<Vars.User>, b: Option<Vars.User>, candidate: Candidate)
    requires Usable(c.view.config) && HeaderSuffices(c.userInfo)
    requires !Wants(c.view.config, c.userInfo, candidate) && AvoidsDaysLeft(c.view.config, candidate)
    requires !candidate.remove
    ensures Value(c.(info := a), candidate) == Value(c.(info := b), candidate)
  {
    hide Vars.NameNeedsPanel, NotDaysLeft, HeaderSuffices, Tmpl.Rendered, Tmpl.NamesOf, RendererOf;
    var r, q := RendererOf(c.(info := a)), RendererOf(c.(info := b));
    SameButLookup(c, a, b);
    var names := Tmpl.NamesOf(candidate.source);
    if candidate.original.Some? && ORIGINAL in names {
      BlindRender(c, a, b, candidate.original.value);
    }
    var r', q' := WithOriginal(r, candidate.original), WithOriginal(q, candidate.original);
    forall n | n in names ensures r'.lookup(n) == q'.lookup(n) {
      BlindLookup(c, a, b, n);
    }
    Tmpl.RenderUsesNamesOnly(r', q', candidate.source);
  }

  lemma SameButLookup(c: Call, a: Option<Vars.User>, b: Option<Vars.User>)
    requires Usable(c.view.config)
    ensures var r, q := RendererOf(c.(info := a)), RendererOf(c.(info := b));
      && r.lookup == Base(c.(info := a)) && q.lookup == Base(c.(info := b))
      && r.unknown == q.unknown && r.casing == q.casing
  {}

  lemma BlindLimit(c: Call, a: Option<Vars.User>, b: Option<Vars.User>)
    requires Vars.KnowsLimit(c.userInfo)
    ensures Vars.Limit(SourceOf(c.(info := a))) == Vars.Limit(SourceOf(c.(info := b)))
  {
    hide UserInfo.Used;
  }

  lemma BlindPasses(c: Call, a: Option<Vars.User>, b: Option<Vars.User>, candidate: Candidate)
    requires !Wants(c.view.config, c.userInfo, candidate)
    ensures Passes(c.(info := a), candidate) == Passes(c.(info := b), candidate)
  {
    hide Vars.Limit, NamesUsed, Vars.NameNeedsPanel;
    if NeedsLimit(candidate) {
      BlindLimit(c, a, b);
    }
  }

  lemma {:induction false} BlindFirstRule(c: Call, a: Option<Vars.User>, b: Option<Vars.User>, key: Bytes, n: nat)
    requires !Needed(c.view, c.userInfo) && n <= |c.view.config.rules|
    ensures FirstRule(c.(info := a), key, n) == FirstRule(c.(info := b), key, n)
  {
    hide ForRule, ForHeader, Wants, Passes, Canonical;
    if n > 0 {
      BlindFirstRule(c, a, b, key, n - 1);
      var w := ForRule(c.view, c.view.config.rules[n - 1]);
      if w.Some? {
        assert IsCandidate(c.view, w.value);
        BlindPasses(c, a, b, w.value);
      }
    }
  }

  /** When nothing collected needs the panel, no candidate names DAYS_LEFT and the
      header is complete or absent, every answer of the panel leads to the same header. */
  lemma PanelIsInvisible(c: Call, a: Option<Vars.User>, b: Option<Vars.User>)
    requires Usable(c.view.config) && HeaderSuffices(c.userInfo)
    requires !Needed(c.view, c.userInfo)
    requires forall w :: IsCandidate(c.view, w) ==> AvoidsDaysLeft(c.view.config, w)
    ensures Rewritten(c.(info := a)) == Rewritten(c.(info := b))
  {
    hide ForRule, ForHeader, Wants, Value, FirstRule, HeaderSuffices, Rewritten, AvoidsDaysLeft;
    var ca, cb := c.(info := a), c.(info := b);
    forall k ensures Field(Rewritten(ca), k) == Field(Rewritten(cb), k) {
      BlindFirstRule(c, a, b, k, |c.view.config.rules|);
      var w := Deciding(ca, k);
      assert Deciding(cb, k) == w;
      if w.Some? && !w.value.remove {
        assert IsCandidate(c.view, w.value);
        BlindValue(c, a, b, w.value);
      }
    }
    SameFields(Rewritten(ca), Rewritten(cb));
  }

  /** The optimisation is invisible: skipping the panel leaves the header that always asking would. */
  lemma SkippingIsInvisible(config: Config, fetching: Fetching, h: Header, rq: Request, answer: Option<Vars.User>,
          now: int)
    requires Usable(config)
    requires var v := View(config, Prepared(config, h), rq);
      Needed(v, UserInfoOf(h)) ||
      (HeaderSuffices(UserInfoOf(h)) && forall w :: IsCandidate(v, w) ==> AvoidsDaysLeft(config, w))
    ensures Applied(config, fetching, h, rq, answer, now) == Applied(config, fetching.(always := true), h, rq, answer, now)
  {
    hide Needed, IsCandidate, AvoidsDaysLeft, HeaderSuffices, Rewritten, UserInfoOf, Prepared;
    var v := View(config, Prepared(config, h), rq);
    if !Needed(v, UserInfoOf(h)) {
      PanelIsInvisible(Call(v, UserInfoOf(h), None, now), None, answer);
    }
  }

  /** The same for a single template, such as a notice. */
  lemma MessageSkipIsInvisible(config: Config, fetching: Fetching, h: Header, rq: Request, template: Bytes,
          answer: Option<Vars.User>, now: int)
    requires Usable(config)
    requires
      || (exists n :: n in Tmpl.NamesOf(template) && Vars.NameNeedsPanel(config.resolver, n, UserInfoOf(h).Some?))
      || (HeaderSuffices(UserInfoOf(h)) && forall n :: n in Tmpl.NamesOf(template) ==> NotDaysLeft(config, n))
    ensures Message(config, fetching, h, rq, template, answer, now) ==
      Message(config, fetching.(always := true), h, rq, template, answer, now)
  {
    hide NotDaysLeft, HeaderSuffices, UserInfoOf, RendererOf, Tmpl.Rendered, Tmpl.NamesOf, Vars.NameNeedsPanel;
    if !(exists n :: n in Tmpl.NamesOf(template) && Vars.NameNeedsPanel(config.resolver, n, UserInfoOf(h).Some?)) {
      BlindRender(Call(View(config, h, rq), UserInfoOf(h), None, now), None, answer, template);
    }
  }

  // ---------- a rule that writes one value ----------

  function Braced(name: Bytes): Bytes {
    ['{'] + name + ['}']
  }

  lemma BracedMatch(name: Bytes)
    requires Tmpl.IsName(name)
    ensures var m := Tmpl.Match(0, |name| + 1, |name| + 2);
      && Tmpl.Matches(Braced(name), m) && Tmpl.Name(Braced(name), m) == name && Tmpl.Spec(Braced(name), m) == []
  {
    var s := Braced(name);
    assert s[1..|name| + 1] == name;
    assert s[|name| + 1..|name| + 1] == [];
  }

  lemma BracedFound(name: Bytes)
    requires Tmpl.IsName(name)
    ensures Tmpl.FindAll(Braced(name), 0) == [Tmpl.Match(0, |name| + 1, |name| + 2)]
    ensures Tmpl.NamesOf(Braced(name)) == [name]
  {
    hide Tmpl.Matches, Tmpl.MatchAt, Tmpl.Name, Tmpl.IsName;
    var m := Tmpl.Match(0, |name| + 1, |name| + 2);
    BracedMatch(name);
    Tmpl.Unambiguous(Braced(name), m);
    assert Tmpl.FindAll(Braced(name), |name| + 2) == [];
    assert [m][1..] == [] && [] + [name] == [name];
    assert Tmpl.AddNames([name], Braced(name), []) == [name];
  }

  /** An unknown name leaves nothing, with that configured. */
  lemma BracedRendered(r: Tmpl.Renderer, name: Bytes)
    requires Tmpl.IsName(name) && r.unknown == Tmpl.Blank
    ensures Tmpl.Rendered(r, Braced(name)) == r.lookup(name).GetOr([])
  {
    hide Tmpl.Matches, Tmpl.FindAll, Tmpl.Name, Tmpl.Spec, Tmpl.IsName;
    BracedMatch(name);
    BracedFound(name);
    var s := Braced(name);
    var m := Tmpl.Match(0, |name| + 1, |name| + 2);
    Tmpl.FindAllOrdered(s, 0);
    var value := r.lookup(name).GetOr([]);
    PlainValue(r, s[0..m.end], name);
    assert [m][1..] == [] && s[0..0] == [] && s[m.end..] == [];
    assert Tmpl.Replaced(r, s, m.end, []) == [];
    assert Tmpl.Replacement(r, s, m) == value;
    assert [] + value + [] == value;
  }

  lemma PlainValue(r: Tmpl.Renderer, text: Bytes, name: Bytes)
    requires r.unknown == Tmpl.Blank
    ensures Tmpl.RenderOne(r, text, name, []) == r.lookup(name).GetOr([])
  {}

  /** Writes one value into a header of its own. */
  function OneRule(name: Bytes): Rule {
    Rule("A", Some(Braced(name)), Unencoded, false, Condition([], [], None, None, None), 0)
  }

  function OneValue(name: Bytes, f: Vars.Format): Config {
    var casing := Tmpl.Casing((s: Bytes) => s, (s: Bytes) => s);
    Config([OneRule(name)], false, false, false, Vars.Resolver(map[], f), Tmpl.Blank, casing)
  }

  lemma OneCandidate(name: Bytes, f: Vars.Format, h: Header, rq: Request) returns (w: Candidate)
    requires Tmpl.IsName(name) && name != ORIGINAL
    ensures var v := View(OneValue(name, f), h, rq);
      ForRule(v, OneRule(name)) == Some(w) && forall c :: IsCandidate(v, c) <==> c == w
    ensures w.source == Braced(name) && w.form == Codec.Plain && w.rule == Some(OneRule(name)) && !w.remove && w.name == "A"
    ensures NamesUsed(w) == [name]
  {
    hide Text, FirstValue, Tmpl.IsName, Braced;
    var v := View(OneValue(name, f), h, rq);
    w := ForRule(v, OneRule(name)).value;
    BracedFound(name);
    assert v.config.rules[0] == OneRule(name);
  }

  lemma OneDecides(c: Call, name: Bytes, f: Vars.Format, w: Candidate)
    requires c.view.config == OneValue(name, f)
    requires ForRule(c.view, OneRule(name)) == Some(w) && w.rule == Some(OneRule(name))
    ensures Deciding(c, "A") == Some(w)
  {
    hide ForRule, SourceOf, Vars.Limit, Braced;
    assert Canonical("A") == "A" by {
      assert Cased("A", true) == "A";
    }
    assert Claims(c, 0, "A");
    var first := FirstRule(c, "A", 1);
  }

  lemma OneIsWritten(c: Call, name: Bytes, f: Vars.Format)
    requires Vars.Configured(f) && c.view.config == OneValue(name, f) && Tmpl.IsName(name) && name != ORIGINAL
    ensures Field(Rewritten(c), "A") == Some([Base(c)(name).GetOr([])])
  {
    hide ForRule, IsCandidate, Deciding, Rewritten, Tmpl.Rendered, NamesUsed, Base, Field, Vars.Configured,
      Tmpl.IsName, Braced;
    var w := OneCandidate(name, f, c.view.header, c.view.rq);
    OneDecides(c, name, f, w);
    BaseIsLookup(c);
    BracedRendered(WithOriginal(RendererOf(c), w.original), name);
  }

  lemma BaseIsLookup(c: Call)
    requires Usable(c.view.config)
    ensures RendererOf(c).lookup == Base(c)
  {}

  lemma OneIsSkipped(name: Bytes, f: Vars.Format, h: Header, rq: Request, info: UserInfo.Info)
    requires Tmpl.IsName(name) && name != ORIGINAL && rq.shortUUID != []
    requires !Vars.NameNeedsPanel(OneValue(name, f).resolver, name, true)
    ensures var v := View(OneValue(name, f), h, rq);
      !Asks(Fetching(true, false), v, Some(info)) && Asks(Fetching(true, true), v, Some(info))
  {
    hide ForRule, IsCandidate, NamesUsed, Vars.NameNeedsPanel, Tmpl.IsName, Braced;
    var v := View(OneValue(name, f), h, rq);
    var w := OneCandidate(name, f, h, rq);
    assert IsCandidate(v, w);
    assert !Wants(v.config, Some(info), w);
  }

  function AnsweredSource(h: Header, rq: Request, info: Option<Vars.User>): Vars.Source {
    Vars.Source(rq.shortUUID, rq.clientType, rq.userAgent, rq.clientIP, rq.subscriptionURL, UserInfoOf(h), info)
  }

  /** The rule writes what the value is without the panel when that is skipped, and with it when it is asked. */
  lemma OneApplied(name: Bytes, f: Vars.Format, always: bool, h: Header, rq: Request, answer: Option<Vars.User>,
          now: int)
    requires Vars.Configured(f) && rq.shortUUID != [] && UserInfoOf(h).Some? && Tmpl.IsName(name) && name != ORIGINAL
    requires !Vars.NameNeedsPanel(OneValue(name, f).resolver, name, true)
    ensures Field(Applied(OneValue(name, f), Fetching(true, always), h, rq, answer, now), "A") ==
      Some([Vars.Lookup(OneValue(name, f).resolver, AnsweredSource(h, rq, if always then answer else None), now, name).GetOr([])])
  {
    hide UserInfoOf, Asks, Rewritten, Vars.Lookup, Vars.NameNeedsPanel, Field, Tmpl.IsName;
    var config := OneValue(name, f);
    assert Prepared(config, h) == h;
    var info := UserInfoOf(h).value;
    OneIsSkipped(name, f, h, rq, info);
    OneIsWritten(Call(View(config, h, rq), Some(info), if always then answer else None, now), name, f);
  }

  /** Skipping leaves the header that asking would. */
  ghost predicate Unseen(config: Config, h: Header, rq: Request, answer: Option<Vars.User>, now: int)
    requires Usable(config)
  {
    Applied(config, Fetching(true, false), h, rq, answer, now) == Applied(config, Fetching(true, true), h, rq, answer, now)
  }

  /** A value that is another with the panel's answer than without gives the skipping away. */
  lemma OneTells(name: Bytes, f: Vars.Format, h: Header, rq: Request, answer: Option<Vars.User>, now: int)
    requires Vars.Configured(f) && rq.shortUUID != [] && UserInfoOf(h).Some? && Tmpl.IsName(name) && name != ORIGINAL
    requires !Vars.NameNeedsPanel(OneValue(name, f).resolver, name, true)
    requires var r := OneValue(name, f).resolver;
      Vars.Lookup(r, AnsweredSource(h, rq, None), now, name).GetOr([]) !=
      Vars.Lookup(r, AnsweredSource(h, rq, answer), now, name).GetOr([])
    ensures Usable(OneValue(name, f)) && !Unseen(OneValue(name, f), h, rq, answer, now)
  {
    hide UserInfoOf, Applied, Field, Vars.Lookup, Vars.NameNeedsPanel, Tmpl.IsName, Vars.Configured, AnsweredSource;
    OneApplied(name, f, false, h, rq, answer, now);
    OneApplied(name, f, true, h, rq, answer, now);
  }

  /** DAYS_LEFT prefers the panel even when the header has an expiry, but does not
      ask for it: with any complete header, some rule and some answer tell
      skipping the panel from asking it. */
  lemma DaysLeftTellsThemApart(f: Vars.Format, h: Header, rq: Request, now: int)
    returns (config: Config, answer: Option<Vars.User>)
    requires Vars.Configured(f) && rq.shortUUID != []
    requires UserInfoOf(h).Some? && Vars.Complete(UserInfoOf(h).value)
    ensures Usable(config) && !Unseen(config, h, rq, answer, now)
  {
    hide UserInfoOf, Unseen, Vars.DaysUntil, UserInfo.Used, Vars.Lookup, Vars.NameNeedsPanel, Decimal;
    config := OneValue("DAYS_LEFT", f);
    var days := Vars.DaysUntil(now, UserInfoOf(h).value.expire);
    answer := Some(Vars.NOBODY.(daysLeft := days + 1));
    Vars.DaysLeftSays(config.resolver, AnsweredSource(h, rq, None), now);
    Vars.DaysLeftSays(config.resolver, AnsweredSource(h, rq, answer), now);
    DecimalReadsBack(days);
    DecimalReadsBack(days + 1);
    DaysIsName();
    OneTells("DAYS_LEFT", f, h, rq, answer, now);
  }

  lemma DaysIsName()
    ensures Tmpl.IsName("DAYS_LEFT") && "DAYS_LEFT" != ORIGINAL
  {}

  // ---------- exactly when skipping cannot be noticed ----------

  /** No rule or scanned header of this configuration looks up DAYS_LEFT. */
  ghost predicate SparesDaysLeft(config: Config, h: Header, rq: Request) {
    forall w :: IsCandidate(View(config, Prepared(config, h), rq), w) ==> AvoidsDaysLeft(config, w)
  }

  /** Whatever the configuration, as long as it spares DAYS_LEFT, and whatever the panel would answer. */
  ghost predicate AlwaysUnseen(h: Header, rq: Request, now: int) {
    forall config, answer :: Usable(config) && SparesDaysLeft(config, h, rq) ==> Unseen(config, h, rq, answer, now)
  }

  const SOME_FORMAT := Vars.Format([], [], [[]], 2, 0, [], [], (_: int, _: nat) => [], (_: int, _: Vars.Layout) => [])

  lemma OneSpares(name: Bytes, f: Vars.Format, h: Header, rq: Request)
    requires Tmpl.IsName(name) && name != ORIGINAL && Vars.Known(name) != Some(Vars.DaysLeft)
    ensures SparesDaysLeft(OneValue(name, f), h, rq)
  {
    hide IsCandidate, NamesUsed, Vars.Known, Tmpl.IsName, UserInfoOf, Braced;
    var config := OneValue(name, f);
    var w := OneCandidate(name, f, Prepared(config, h), rq);
  }

  /** With a header that has traffic fields at all, skipping the panel goes
      unnoticed under every configuration and answer exactly when the header is complete. */
  lemma UnseenIffComplete(h: Header, rq: Request, now: int)
    requires UserInfoOf(h).Some? && rq.shortUUID != []
    ensures AlwaysUnseen(h, rq, now) <==> Vars.Complete(UserInfoOf(h).value)
  {
    hide UserInfoOf, Unseen, SparesDaysLeft, Usable, Vars.Complete;
    if Vars.Complete(UserInfoOf(h).value) {
      forall config, answer | Usable(config) && SparesDaysLeft(config, h, rq) ensures Unseen(config, h, rq, answer, now) {
        CompleteIsUnseen(config, h, rq, answer, now);
      }
    } else {
      var config, answer := IncompleteIsSeen(h, rq, now);
    }
  }

  lemma CompleteIsUnseen(config: Config, h: Header, rq: Request, answer: Option<Vars.User>, now: int)
    requires Usable(config) && SparesDaysLeft(config, h, rq)
    requires UserInfoOf(h).Some? && Vars.Complete(UserInfoOf(h).value)
    ensures Unseen(config, h, rq, answer, now)
  {
    hide UserInfoOf, Applied, Usable, Vars.Complete, IsCandidate, AvoidsDaysLeft, Prepared, Needed;
    SkippingIsInvisible(config, Fetching(true, false), h, rq, answer, now);
  }

  /** An incomplete header always has a value that the panel would fill in. */
  lemma IncompleteIsSeen(h: Header, rq: Request, now: int) returns (config: Config, answer: Option<Vars.User>)
    requires UserInfoOf(h).Some? && !Vars.Complete(UserInfoOf(h).value) && rq.shortUUID != []
    ensures Usable(config) && SparesDaysLeft(config, h, rq) && !Unseen(config, h, rq, answer, now)
  {
    hide UserInfoOf, Unseen, SparesDaysLeft, Vars.Known, Vars.Lookup, Vars.NameNeedsPanel, Tmpl.IsName;
    var f := SOME_FORMAT;
    answer := Some(Vars.NOBODY.(usedBytes := 1, limitBytes := 1, expiry := Some(1)));
    var name := Vars.MissingName(UserInfoOf(h).value);
    config := OneValue(name, f);
    MissingIsName(UserInfoOf(h).value);
    Vars.MissingIsFilled(config.resolver, AnsweredSource(h, rq, None), answer, now);
    OneSpares(name, f, h, rq);
    OneTells(name, f, h, rq, answer, now);
  }

  lemma MissingIsName(info: UserInfo.Info)
    ensures Tmpl.IsName(Vars.MissingName(info)) && Vars.MissingName(info) != ORIGINAL
  {}
}
