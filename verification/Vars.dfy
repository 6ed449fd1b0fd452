/** Where a placeholder's value comes from: the request, the response header, or
    the panel. Formatting of byte counts and times is left open. */
module Vars {
  import opened Strings
  import opened Numbers
  import UserInfo

  // ---------- the catalog ----------

  datatype Var =
    | TrafficUsed | TrafficUsedBytes | TrafficLimit | TrafficLimitBytes | TrafficUsedInLimit | TrafficLimitValue
    | TrafficUnit | TrafficAvailable | TrafficAvailableBytes | TrafficUsedPercent | TrafficLeftPercent | ProgressBar
    | TrafficUpload | TrafficDownload
    | DaysLeft | ExpiresAt | ExpiresAtDate | ExpiresAtTime | ExpiresAtUnix
    | Username | UserStatus | IsActive | TrafficLimitStrategy | LifetimeTrafficUsed
    | OriginalValue | ShortUuid | SubscriptionUrl | ClientType | UserAgent | ClientIp | Now | Date | Time

  datatype Origin = Local | Traffic | Panel

  function Known(name: Bytes): Option<Var> {
    if name == "TRAFFIC_USED" then Some(TrafficUsed)
    else if name == "TRAFFIC_USED_BYTES" then Some(TrafficUsedBytes)
    else if name == "TRAFFIC_LIMIT" then Some(TrafficLimit)
    else if name == "TRAFFIC_LIMIT_BYTES" then Some(TrafficLimitBytes)
    else if name == "TRAFFIC_USED_IN_LIMIT" then Some(TrafficUsedInLimit)
    else if name == "TRAFFIC_LIMIT_VALUE" then Some(TrafficLimitValue)
    else if name == "TRAFFIC_UNIT" then Some(TrafficUnit)
    else if name == "TRAFFIC_AVAILABLE" then Some(TrafficAvailable)
    else if name == "TRAFFIC_AVAILABLE_BYTES" then Some(TrafficAvailableBytes)
    else if name == "TRAFFIC_USED_PERCENT" then Some(TrafficUsedPercent)
    else if name == "TRAFFIC_LEFT_PERCENT" then Some(TrafficLeftPercent)
    else if name == "PROGRESS_BAR" then Some(ProgressBar)
    else if name == "TRAFFIC_UPLOAD" then Some(TrafficUpload)
    else if name == "TRAFFIC_DOWNLOAD" then Some(TrafficDownload)
    else if name == "DAYS_LEFT" then Some(DaysLeft)
    else if name == "EXPIRES_AT" then Some(ExpiresAt)
    else if name == "EXPIRES_AT_DATE" then Some(ExpiresAtDate)
    else if name == "EXPIRES_AT_TIME" then Some(ExpiresAtTime)
    else if name == "EXPIRES_AT_UNIX" then Some(ExpiresAtUnix)
    else OtherKnown(name)
  }

  function OtherKnown(name: Bytes): Option<Var> {
    if name == "USERNAME" then Some(Username)
    else if name == "USER_STATUS" then Some(UserStatus)
    else if name == "IS_ACTIVE" then Some(IsActive)
    else if name == "TRAFFIC_LIMIT_STRATEGY" then Some(TrafficLimitStrategy)
    else if name == "LIFETIME_TRAFFIC_USED" then Some(LifetimeTrafficUsed)
    else if name == "ORIGINAL_VALUE" then Some(OriginalValue)
    else if name == "SHORT_UUID" then Some(ShortUuid)
    else if name == "SUBSCRIPTION_URL" then Some(SubscriptionUrl)
    else if name == "CLIENT_TYPE" then Some(ClientType)
    else if name == "USER_AGENT" then Some(UserAgent)
    else if name == "CLIENT_IP" then Some(ClientIp)
    else if name == "NOW" then Some(Now)
    else if name == "DATE" then Some(Date)
    else if name == "TIME" then Some(Time)
    else None
  }

  function OriginOf(v: Var): Origin {
    match v
    case Username => Panel
    case UserStatus => Panel
    case IsActive => Panel
    case TrafficLimitStrategy => Panel
    case LifetimeTrafficUsed => Panel
    case OriginalValue => Local
    case ShortUuid => Local
    case SubscriptionUrl => Local
    case ClientType => Local
    case UserAgent => Local
    case ClientIp => Local
    case Now => Local
    case Date => Local
    case Time => Local
    case _ => Traffic
  }

  // ---------- the sources ----------

  /** What the panel says about a user; byte counts are -1 when unparsable. */
  datatype User = User(
    username: Bytes, status: Bytes, isActive: bool, strategy: Bytes,
    usedBytes: int, limitBytes: int, lifetimeBytes: int, expiry: Option<int>, daysLeft: int)

  datatype Source = Source(
    shortUUID: Bytes, clientType: Bytes, userAgent: Bytes, clientIP: Bytes, subscriptionURL: Bytes,
    userInfo: Option<UserInfo.Info>, panel: Option<User>)

  datatype Layout = Full | DateOnly | TimeOnly

  /** Configured texts, and the formatting this model leaves open: `scaled` writes
      a byte count in the unit of a given index, `time` an instant in a layout. */
  datatype Format = Format(
    unlimited: Bytes, never: Bytes, units: seq<Bytes>, base: int,
    barWidth: int, barFilled: Bytes, barEmpty: Bytes,
    scaled: (int, nat) -> Bytes, time: (int, Layout) -> Bytes)

  datatype Resolver = Resolver(custom: map<Bytes, Bytes>, format: Format)

  /** A usable configuration: units to choose from, and a base they step by. */
  predicate Configured(f: Format) {
    |f.units| >= 1 && f.base >= 2
  }

  // ---------- units and percentages ----------

  /** The largest unit, up to maxIdx, that n fills at least once. */
  function UnitIndex(n: int, base: int, maxIdx: nat): (idx: nat)
    requires base >= 2
    ensures idx <= maxIdx
    decreases maxIdx
  {
    if maxIdx == 0 || n < base then 0 else 1 + UnitIndex(n / base, base, maxIdx - 1)
  }

  method FindUnit(n: int, base: int, maxIdx: nat) returns (idx: nat)
    requires base >= 2
    ensures idx == UnitIndex(n, base, maxIdx)
  {
    var value := n;
    idx := 0;
    while value >= base && idx < maxIdx
      invariant idx <= maxIdx
      invariant idx + UnitIndex(value, base, maxIdx - idx) == UnitIndex(n, base, maxIdx)
      decreases maxIdx - idx
    {
      value := value / base;
      idx := idx + 1;
    }
  }

  function Power(base: int, k: nat): int {
    if k == 0 then 1 else base * Power(base, k - 1)
  }

  lemma DivideBound(n: int, base: int, p: int)
    requires base >= 2
    ensures p <= n / base <==> base * p <= n
  {
    if p <= n / base {
      assert base * p <= base * (n / base);
    } else {
      assert n / base + 1 <= p;
      assert base * (n / base + 1) <= base * p;
    }
  }

  lemma PowerStep(base: int, k: nat)
    ensures Power(base, 0) == 1 && Power(base, k + 1) == base * Power(base, k)
  {}

  lemma UnitStep(n: int, base: int, maxIdx: nat)
    requires base >= 2
    ensures UnitIndex(n, base, maxIdx) ==
      if maxIdx == 0 || n < base then 0 else 1 + UnitIndex(n / base, base, maxIdx - 1)
  {}

  /** The count is at least one of the unit chosen, and less than one of the next. */
  lemma {:induction false} UnitFits(n: int, base: int, maxIdx: nat)
    requires base >= 2 && n >= 1
    ensures var idx := UnitIndex(n, base, maxIdx);
      Power(base, idx) <= n && (idx < maxIdx ==> n < Power(base, idx + 1))
    decreases maxIdx
  {
    hide *;
    UnitStep(n, base, maxIdx);
    if maxIdx > 0 && n >= base {
      var idx := UnitIndex(n / base, base, maxIdx - 1);
      DivideBound(n, base, 1);
      UnitFits(n / base, base, maxIdx - 1);
      DivideBound(n, base, Power(base, idx));
      DivideBound(n, base, Power(base, idx + 1));
      PowerStep(base, idx);
      PowerStep(base, idx + 1);
    } else {
      PowerStep(base, 0);
    }
  }

  /** At least one of the unit, and less than one of the next, if there is a next. */
  ghost predicate Fills(f: Format, n: int, idx: nat) {
    Power(f.base, idx) <= n && (idx + 1 < |f.units| ==> n < Power(f.base, idx + 1))
  }

  /** Rounded to the nearest percent, an unlimited plan as 0. */
  function PercentUsed(used: int, limit: int): Option<int> {
    if used < 0 || limit < 0 then None
    else if limit == 0 then Some(0)
    else
      var rounded := (200 * used + limit) / (2 * limit);
      Some(if rounded > 100 then 100 else rounded)
  }

  lemma QuotientAtMost(top: int, bottom: int, most: int)
    requires bottom > 0 && top < bottom * (most + 1)
    ensures top / bottom <= most
  {
    var q := top / bottom;
    assert bottom * q <= top;
    if q > most {
      Times(bottom, most + 1, q);
    }
  }

  lemma Times(factor: int, a: int, b: int)
    requires factor >= 0 && a <= b
    ensures factor * a <= factor * b
  {
  }

  /** The nearest whole percentage, 100 from the limit on; known exactly when both counts are. */
  lemma PercentIsNearest(used: int, limit: int)
    ensures PercentUsed(used, limit).Some? <==> used >= 0 && limit >= 0
    ensures limit == 0 && used >= 0 ==> PercentUsed(used, limit) == Some(0)
    ensures 0 < limit <= used ==> PercentUsed(used, limit) == Some(100)
    ensures 0 <= used <= limit && limit > 0 ==>
      var pct := PercentUsed(used, limit).value;
      0 <= pct <= 100 && 2 * limit * pct <= 200 * used + limit < 2 * limit * (pct + 1)
  {
    if used >= 0 && limit > 0 {
      var top, bottom := 200 * used + limit, 2 * limit;
      var q := top / bottom;
      assert bottom * q <= top < bottom * (q + 1);
      if used < limit {
        QuotientAtMost(top, bottom, 100);
      } else if q < 100 {
        Times(bottom, q + 1, 100);
      }
    }
  }

  function Repeat(s: Bytes, n: nat): Bytes {
    if n == 0 then [] else s + Repeat(s, n - 1)
  }

  /** How many cells of the bar are filled, to the nearest. */
  function FilledCells(width: nat, pct: int): (n: nat)
    requires 0 <= pct <= 100
    ensures n <= width
  {
    Times(width, pct, 100);
    (2 * (width * pct) + 100) / 200
  }

  function Bar(f: Format, pct: int): Bytes
    requires 0 <= pct <= 100
  {
    if f.barWidth <= 0 then []
    else
      var filled := FilledCells(f.barWidth, pct);
      Repeat(f.barFilled, filled) + Repeat(f.barEmpty, f.barWidth - filled)
  }

  // ---------- resolving ----------

  /** The traffic counters: the header's, each filled from the panel where the header lacks it. */
  datatype Counters = Counters(used: int, limit: int, ok: bool)

  function TrafficCounters(src: Source): Counters {
    var header :=
      if src.userInfo.None? then Counters(-1, -1, false)
      else
        var u, l := UserInfo.Used(src.userInfo.value), src.userInfo.value.total;
        if u >= 0 || l >= 0 then Counters(u, l, true) else Counters(-1, -1, false);
    if src.panel.None? then header
    else
      var used := if header.used < 0 then src.panel.value.usedBytes else header.used;
      var limit := if header.limit < 0 then src.panel.value.limitBytes else header.limit;
      Counters(used, limit, header.ok || used >= 0 || limit >= 0)
  }

  predicate KnowsUsed(userInfo: Option<UserInfo.Info>) {
    userInfo.Some? && UserInfo.Used(userInfo.value) >= 0
  }

  predicate KnowsLimit(userInfo: Option<UserInfo.Info>) {
    userInfo.Some? && userInfo.value.total >= 0
  }

  /** A counter the header gives is the header's, whatever the panel says; any
      other is the panel's, if it gives one. Something is known exactly when
      one of the two counters is. */
  method CountTraffic(src: Source) returns (used: int, limit: int, ok: bool)
    ensures Counters(used, limit, ok) == TrafficCounters(src)
    ensures KnowsUsed(src.userInfo) ==> used == UserInfo.Used(src.userInfo.value)
    ensures KnowsLimit(src.userInfo) ==> limit == src.userInfo.value.total
    ensures !KnowsUsed(src.userInfo) && src.panel.Some? ==> used == src.panel.value.usedBytes
    ensures !KnowsLimit(src.userInfo) && src.panel.Some? ==> limit == src.panel.value.limitBytes
    ensures !KnowsUsed(src.userInfo) && src.panel.None? ==> used < 0
    ensures !KnowsLimit(src.userInfo) && src.panel.None? ==> limit < 0
    ensures ok <==> used >= 0 || limit >= 0
  {
    used, limit, ok := -1, -1, false;
    if src.userInfo.Some? {
      var u, l := UserInfo.Used(src.userInfo.value), src.userInfo.value.total;
      if u >= 0 || l >= 0 {
        used, limit, ok := u, l, true;
      }
    }
    if src.panel.Some? {
      if used < 0 {
        used := src.panel.value.usedBytes;
      }
      if limit < 0 {
        limit := src.panel.value.limitBytes;
      }
      ok := ok || used >= 0 || limit >= 0;
    }
  }

  /** The traffic allowance, zero for unlimited; none when unknown. */
  function Limit(src: Source): Option<int> {
    var c := TrafficCounters(src);
    if c.ok && c.limit >= 0 then Some(c.limit) else None
  }

  function NonEmpty(s: Bytes): Option<Bytes> {
    if s != [] then Some(s) else None
  }

  /** FormatBytes: in the largest unit it fills. */
  function BytesText(f: Format, n: int): Option<Bytes>
    requires Configured(f)
  {
    if n < 0 then None
    else
      var idx := UnitIndex(n, f.base, |f.units| - 1);
      Some(f.scaled(n, idx) + [' '] + f.units[idx])
  }

  function RawBytes(n: int): Option<Bytes> {
    if n < 0 then None else Some(Decimal(n))
  }

  /** The unit shared by both sides of "used of limit": the limit's, if there is one. */
  function LimitScale(f: Format, used: int, limit: int): (idx: nat)
    requires Configured(f)
    ensures idx < |f.units|
  {
    var n := if limit > 0 then limit else if used < 0 then 0 else used;
    UnitIndex(n, f.base, |f.units| - 1)
  }

  /** The largest unit that what sets the scale fills: the limit if there is
      one, else what is used, and the smallest unit for neither. */
  method ChooseScale(f: Format, used: int, limit: int) returns (idx: nat)
    requires Configured(f)
    ensures idx == LimitScale(f, used, limit) < |f.units|
    ensures limit > 0 ==> Fills(f, limit, idx)
    ensures limit <= 0 && used > 0 ==> Fills(f, used, idx)
    ensures limit <= 0 && used <= 0 ==> idx == 0
  {
    hide UserInfo.Used;
    if limit > 0 {
      UnitFits(limit, f.base, |f.units| - 1);
    } else if used > 0 {
      UnitFits(used, f.base, |f.units| - 1);
    }
    var n := limit;
    if n <= 0 {
      n := used;
    }
    if n < 0 {
      n := 0;
    }
    idx := FindUnit(n, f.base, |f.units| - 1);
  }

  function Available(used: int, limit: int): int {
    if used < 0 || limit < 0 then -1 else if limit < used then 0 else limit - used
  }

  function Expiry(src: Source): Option<int> {
    if src.userInfo.Some? && src.userInfo.value.expire > 0 then Some(src.userInfo.value.expire)
    else if src.panel.Some? then src.panel.value.expiry
    else None
  }

  function DaysUntil(now: int, expiry: int): nat {
    if expiry <= now then 0 else (expiry - now + 86399) / 86400
  }

  function ResolveLocal(r: Resolver, v: Var, src: Source, now: int): Option<Bytes> {
    match v
    case ShortUuid => NonEmpty(src.shortUUID)
    case ClientType => NonEmpty(src.clientType)
    case UserAgent => NonEmpty(src.userAgent)
    case ClientIp => NonEmpty(src.clientIP)
    case SubscriptionUrl => NonEmpty(src.subscriptionURL)
    case Now => Some(r.format.time(now, Full))
    case Date => Some(r.format.time(now, DateOnly))
    case Time => Some(r.format.time(now, TimeOnly))
    case _ => None
  }

  function ResolvePanel(r: Resolver, v: Var, panel: Option<User>): Option<Bytes>
    requires Configured(r.format)
  {
    if panel.None? then None
    else
      var u := panel.value;
      match v
      case Username => NonEmpty(u.username)
      case UserStatus => NonEmpty(u.status)
      case IsActive => Some(if u.isActive then "true" else "false")
      case TrafficLimitStrategy => NonEmpty(u.strategy)
      case LifetimeTrafficUsed => BytesText(r.format, u.lifetimeBytes)
      case _ => None
  }

  function ResolveCounters(r: Resolver, v: Var, used: int, limit: int): Option<Bytes>
    requires Configured(r.format)
  {
    var f := r.format;
    match v
    case TrafficUsed => BytesText(f, used)
    case TrafficUsedBytes => RawBytes(used)
    case TrafficLimit => if limit == 0 then Some(f.unlimited) else BytesText(f, limit)
    case TrafficLimitBytes => RawBytes(limit)
    case TrafficUsedInLimit => if used < 0 then None else Some(f.scaled(used, LimitScale(f, used, limit)))
    case TrafficLimitValue =>
      if limit < 0 then None
      else if limit == 0 then Some(f.unlimited)
      else Some(f.scaled(limit, LimitScale(f, used, limit)))
    case TrafficUnit => if limit < 0 && used < 0 then None else Some(f.units[LimitScale(f, used, limit)])
    case TrafficAvailable => if limit == 0 then Some(f.unlimited) else BytesText(f, Available(used, limit))
    case TrafficAvailableBytes => if limit == 0 then Some("0") else RawBytes(Available(used, limit))
    case TrafficUsedPercent => PercentText(PercentUsed(used, limit))
    case TrafficLeftPercent =>
      var pct := PercentUsed(used, limit);
      if pct.None? then None else PercentText(Some(100 - pct.value))
    case ProgressBar =>
      var pct := PercentUsed(used, limit);
      if pct.None? || pct.value < 0 then None else Some(Bar(f, pct.value))
    case _ => None
  }

  function PercentText(pct: Option<int>): Option<Bytes> {
    if pct.None? then None else Some(FormatInt(pct.value))
  }

  function ResolveExpiry(r: Resolver, v: Var, src: Source, now: int): Option<Bytes> {
    var expiry := Expiry(src);
    match v
    case DaysLeft =>
      if src.panel.Some? then Some(Decimal(if src.panel.value.daysLeft < 0 then 0 else src.panel.value.daysLeft))
      else if expiry.None? then None
      else Some(Decimal(DaysUntil(now, expiry.value)))
    case ExpiresAtUnix => Some(if expiry.None? then "0" else FormatInt(expiry.value))
    case ExpiresAt => Some(if expiry.None? then r.format.never else r.format.time(expiry.value, Full))
    case ExpiresAtDate => Some(if expiry.None? then r.format.never else r.format.time(expiry.value, DateOnly))
    case ExpiresAtTime => Some(if expiry.None? then r.format.never else r.format.time(expiry.value, TimeOnly))
    case _ => None
  }

  /** "Used of limit" reads in one unit: both counts are written in the unit that
      TRAFFIC_UNIT names, and it is the limit's own. */
  lemma ScaleIsShared(r: Resolver, used: int, limit: int) returns (idx: nat)
    requires Configured(r.format) && used >= 0 && limit > 0
    ensures idx < |r.format.units| && Fills(r.format, limit, idx)
    ensures ResolveCounters(r, TrafficUsedInLimit, used, limit) == Some(r.format.scaled(used, idx))
    ensures ResolveCounters(r, TrafficLimitValue, used, limit) == Some(r.format.scaled(limit, idx))
    ensures ResolveCounters(r, TrafficUnit, used, limit) == Some(r.format.units[idx])
  {
    hide Power;
    idx := LimitScale(r.format, used, limit);
    UnitFits(limit, r.format.base, |r.format.units| - 1);
  }

  predicate IsExpiry(v: Var) {
    v.DaysLeft? || v.ExpiresAt? || v.ExpiresAtDate? || v.ExpiresAtTime? || v.ExpiresAtUnix?
  }

  function ResolveTraffic(r: Resolver, v: Var, src: Source, now: int): Option<Bytes>
    requires Configured(r.format)
  {
    var c := TrafficCounters(src);
    if v.TrafficUpload? then
      if src.userInfo.None? then None else BytesText(r.format, src.userInfo.value.upload)
    else if v.TrafficDownload? then
      if src.userInfo.None? then None else BytesText(r.format, src.userInfo.value.download)
    else if IsExpiry(v) then ResolveExpiry(r, v, src, now)
    else ResolveCounters(r, v, if c.ok then c.used else -1, if c.ok then c.limit else -1)
  }

  function ResolveVar(r: Resolver, v: Var, src: Source, now: int): Option<Bytes>
    requires Configured(r.format)
  {
    match OriginOf(v)
    case Panel => ResolvePanel(r, v, src.panel)
    case Traffic => ResolveTraffic(r, v, src, now)
    case Local => ResolveLocal(r, v, src, now)
  }

  /** A configured variable first, then the catalog; other names have no value. */
  function Lookup(r: Resolver, src: Source, now: int, name: Bytes): Option<Bytes>
    requires Configured(r.format)
  {
    if name in r.custom then Some(r.custom[name])
    else
      match Known(name)
      case None => None
      case Some(v) => ResolveVar(r, v, src, now)
  }

  // ---------- when the panel is needed ----------

  predicate NameNeedsPanel(r: Resolver, name: Bytes, haveUserInfo: bool) {
    && name !in r.custom
    && Known(name).Some?
    && match OriginOf(Known(name).value)
       case Panel => true
       case Traffic => !haveUserInfo
       case Local => false
  }

  method NeedsPanel(r: Resolver, names: seq<Bytes>, haveUserInfo: bool) returns (needs: bool)
    ensures needs <==> exists i :: 0 <= i < |names| && NameNeedsPanel(r, names[i], haveUserInfo)
  {
    hide Known;
    for i := 0 to |names|
      invariant forall j :: 0 <= j < i ==> !NameNeedsPanel(r, names[j], haveUserInfo)
    {
      if names[i] in r.custom {
        continue;
      }
      var v := Known(names[i]);
      if v.None? {
        continue;
      }
      match OriginOf(v.value) {
        case Panel => return true;
        case Traffic =>
          if !haveUserInfo {
            return true;
          }
        case Local =>
      }
    }
    needs := false;
  }

  /** The header leaves nothing about traffic or expiry for the panel to fill. */
  predicate Complete(u: UserInfo.Info) {
    UserInfo.Used(u) >= 0 && u.total >= 0 && u.expire > 0
  }

  /** Whatever the panel says, the value is the same. */
  ghost predicate PanelBlind(r: Resolver, v: Var, src: Source, now: int)
    requires Configured(r.format)
  {
    forall a, b :: ResolveVar(r, v, src.(panel := a), now) == ResolveVar(r, v, src.(panel := b), now)
  }

  lemma CompleteIsBlind(r: Resolver, v: Var, src: Source, now: int)
    requires Configured(r.format)
    requires src.userInfo.Some? && Complete(src.userInfo.value)
    requires OriginOf(v) != Panel && v != DaysLeft
    ensures PanelBlind(r, v, src, now)
  {
    hide UserInfo.Used, ResolveCounters, BytesText;
  }

  lemma KnownDaysLeft()
    ensures Known("DAYS_LEFT") == Some(DaysLeft)
  {}

  /** What DAYS_LEFT says with the panel asked, and with it skipped. */
  lemma DaysLeftSays(r: Resolver, src: Source, now: int)
    requires Configured(r.format) && r.custom == map[]
    requires src.userInfo.Some? && src.userInfo.value.expire > 0
    ensures src.panel.None? ==> Lookup(r, src, now, "DAYS_LEFT") == Some(Decimal(DaysUntil(now, src.userInfo.value.expire)))
    ensures src.panel.Some? && src.panel.value.daysLeft >= 0 ==>
      Lookup(r, src, now, "DAYS_LEFT") == Some(Decimal(src.panel.value.daysLeft))
    ensures !NameNeedsPanel(r, "DAYS_LEFT", true)
  {
    hide Known, Decimal, DaysUntil;
    KnownDaysLeft();
  }

  lemma DecimalsDiffer()
    ensures Decimal(0) != Decimal(1)
  {
    assert Decimal(0)[0] != Decimal(1)[0];
  }

  const NOBODY := User([], [], false, [], 0, 0, 0, Some(0), 0)

  /** With a header at hand, every traffic value but DAYS_LEFT is the same for
      every panel answer exactly when the header is complete. */
  lemma BlindIffComplete(r: Resolver, src: Source, now: int)
    requires Configured(r.format) && src.userInfo.Some?
    ensures (forall v :: OriginOf(v) == Traffic && v != DaysLeft ==> PanelBlind(r, v, src, now))
            <==> Complete(src.userInfo.value)
  {
    if Complete(src.userInfo.value) {
      forall v | OriginOf(v) == Traffic && v != DaysLeft ensures PanelBlind(r, v, src, now) {
        CompleteIsBlind(r, v, src, now);
      }
    } else {
      DecimalsDiffer();
      var one := NOBODY.(usedBytes := 1, limitBytes := 1, expiry := Some(1));
      var a, b := src.(panel := Some(NOBODY)), src.(panel := Some(one));
      var u := src.userInfo.value;
      if UserInfo.Used(u) < 0 {
        assert ResolveVar(r, TrafficUsedBytes, a, now) != ResolveVar(r, TrafficUsedBytes, b, now);
        assert !PanelBlind(r, TrafficUsedBytes, src, now);
      } else if u.total < 0 {
        assert ResolveVar(r, TrafficLimitBytes, a, now) != ResolveVar(r, TrafficLimitBytes, b, now);
        assert !PanelBlind(r, TrafficLimitBytes, src, now);
      } else {
        assert ResolveVar(r, ExpiresAtUnix, a, now) != ResolveVar(r, ExpiresAtUnix, b, now);
        assert !PanelBlind(r, ExpiresAtUnix, src, now);
      }
    }
  }

  /** DAYS_LEFT prefers the panel whatever the header says, so it never is. */
  lemma DaysLeftIsNeverBlind(r: Resolver, src: Source, now: int)
    requires Configured(r.format)
    ensures !PanelBlind(r, DaysLeft, src, now)
  {
    DecimalsDiffer();
    var a, b := src.(panel := Some(NOBODY)), src.(panel := Some(NOBODY.(daysLeft := 1)));
    assert ResolveVar(r, DaysLeft, a, now) != ResolveVar(r, DaysLeft, b, now);
  }

  /** A value that an incomplete header leaves to the panel. */
  function MissingName(u: UserInfo.Info): Bytes {
    if UserInfo.Used(u) < 0 then "TRAFFIC_USED_BYTES"
    else if u.total < 0 then "TRAFFIC_LIMIT_BYTES"
    else "EXPIRES_AT_UNIX"
  }

  lemma MissingIsKnown(u: UserInfo.Info)
    ensures Known(MissingName(u)) ==
      Some(if UserInfo.Used(u) < 0 then TrafficUsedBytes else if u.total < 0 then TrafficLimitBytes else ExpiresAtUnix)
  {
    hide UserInfo.Used;
  }

  /** It needs no panel, and yet the panel's answer fills it in. */
  lemma MissingIsFilled(r: Resolver, src: Source, answer: Option<User>, now: int)
    requires Configured(r.format) && r.custom == map[]
    requires src.userInfo.Some? && !Complete(src.userInfo.value) && src.panel.None?
    requires answer == Some(NOBODY.(usedBytes := 1, limitBytes := 1, expiry := Some(1)))
    ensures var name := MissingName(src.userInfo.value);
      && Known(name) != Some(DaysLeft) && !NameNeedsPanel(r, name, true)
      && Lookup(r, src, now, name).GetOr([]) != Lookup(r, src.(panel := answer), now, name).GetOr([])
  {
    hide Known, MissingName, UserInfo.Used, Decimal;
    MissingIsKnown(src.userInfo.value);
    DecimalsDiffer();
    DecimalReadsBack(1);
    DecimalOfZero();
  }

  lemma DecimalOfZero()
    ensures Decimal(0) == "0"
  {}

  /** A name that needs no panel, and is not DAYS_LEFT, looks up the same for
      every panel answer when the header is complete or absent. */
  lemma SkippedLookupIsBlind(r: Resolver, src: Source, now: int, name: Bytes, a: Option<User>, b: Option<User>)
    requires Configured(r.format)
    requires !NameNeedsPanel(r, name, src.userInfo.Some?)
    requires src.userInfo.Some? ==> Complete(src.userInfo.value)
    requires name in r.custom || Known(name) != Some(DaysLeft)
    ensures Lookup(r, src.(panel := a), now, name) == Lookup(r, src.(panel := b), now, name)
  {
    hide Known, ResolveTraffic, ResolvePanel;
    if name !in r.custom && Known(name).Some? {
      var v := Known(name).value;
      if OriginOf(v) == Traffic {
        CompleteIsBlind(r, v, src, now);
        assert ResolveVar(r, v, src.(panel := a), now) == ResolveVar(r, v, src.(panel := b), now);
      }
    }
  }
}
