/**
 * The pricing table, its JSON form and user overrides
 * (crates/core/src/pricing.rs).  Rates and multipliers are reals.
 */
module Pricing {
  import opened Wrappers
  import opened Json
  import opened Text
  import opened Ordered

  const U32_MAX: nat := 0xFFFF_FFFF
  const I32_BOUND: int := 0x8000_0000
  const MAX_PEAK_MULTIPLIER: real := 100.0

  datatype Error =
    | NotAnObject
    | EmptyRevision
    | UnsupportedTimezone
    | BadMultiplier
    | BadFlag
    | BadWindow
    | WindowOrder
    | EmptyKey
    | BadRates

  datatype Rates = Rates(cachedInput: real, cacheMissInput: real, output: real)

  datatype PeakWindow = PeakWindow(fromMinute: nat, toMinute: nat)

  datatype PeakValley = PeakValley(
    enabled: bool,
    timezone: string,
    utcOffsetMinutes: int,
    multiplier: real,
    windows: seq<PeakWindow>)

  datatype Table = Table(
    revision: string,
    currency: string,
    unit: string,
    peakValley: PeakValley,
    groups: map<string, Rates>,
    rates: map<string, Rates>)

  // ------------------------------------------------------------------ clock times

  function PadTwo(n: nat): string {
    if n < 10 then "0" + Decimal(n) else Decimal(n)
  }

  function MinuteToHhmm(minute: nat): string {
    PadTwo(minute / 60) + ":" + PadTwo(minute % 60)
  }

  function ParseHhmm(value: string): (r: Option<nat>)
    ensures r.Some? ==> r.value < 1440
  {
    var text := Trim(value);
    var colon := IndexOf(text, ':');
    if colon == |text| then None
    else
      match (ParseUnsigned(Trim(text[..colon]), U32_MAX), ParseUnsigned(Trim(text[colon + 1..]), U32_MAX))
      case (Some(hour), Some(minute)) => if hour > 23 || minute > 59 then None else Some(hour * 60 + minute)
      case _ => None
  }

  lemma PadTwoDigits(n: nat)
    requires n < 100
    ensures PadTwo(n) == [Digit(n / 10), Digit(n % 10)]
  {
    if n >= 10 {
      assert Decimal(n / 10) == [Digit(n / 10)];
    }
  }

  lemma TwoDigitsValue(a: nat, b: nat)
    requires a < 10 && b < 10
    ensures AllDigits([Digit(a), Digit(b)]) && DigitsValue([Digit(a), Digit(b)]) == 10 * a + b
  {
    var s := [Digit(a), Digit(b)];
    assert s[..1] == [Digit(a)];
    assert [Digit(a)][..0] == [];
    assert DigitsValue([Digit(a)]) == a;
  }

  lemma TwoDigits(n: nat)
    requires n < 100
    ensures |PadTwo(n)| == 2 && AllDigits(PadTwo(n)) && ParseUnsigned(PadTwo(n), U32_MAX) == Some(n)
    ensures Trim(PadTwo(n)) == PadTwo(n)
  {
    hide PadTwo, DigitsValue, Trim;
    PadTwoDigits(n);
    TwoDigitsValue(n / 10, n % 10);
    TrimFixed(PadTwo(n));
  }

  /** Every minute of the day survives printing and parsing. */
  lemma HhmmRoundTrip(minute: nat)
    requires minute < 1440
    ensures ParseHhmm(MinuteToHhmm(minute)) == Some(minute)
  {
    hide PadTwo, ParseUnsigned, Trim;
    var h, m := minute / 60, minute % 60;
    TwoDigits(h);
    TwoDigits(m);
    var s := MinuteToHhmm(minute);
    assert s[..2] == PadTwo(h) && s[2] == ':' && s[3..] == PadTwo(m);
    TrimFixed(s);
    var colon := IndexOf(s, ':');
    assert colon == 2 by {
      assert forall i | 0 <= i < 2 :: s[i] == PadTwo(h)[i] != ':';
      assert forall i | 0 <= i < colon :: s[..colon][i] == s[i];
    }
  }

  /** A time of day is printed as two digits, a colon and two digits. */
  lemma HhmmPrinted(minute: nat)
    requires minute < 1440
    ensures var h, m := minute / 60, minute % 60;
            MinuteToHhmm(minute) == [Digit(h / 10), Digit(h % 10), ':', Digit(m / 10), Digit(m % 10)]
  {
    PadTwoDigits(minute / 60);
    PadTwoDigits(minute % 60);
  }

  /** A time of day is read as an hour below 24 and a minute below 60 with a colon between them, with
      blanks around either, and nothing else is. */
  lemma HhmmExactly(hourText: string, minuteText: string)
    requires ':' !in hourText
    ensures ParseHhmm(hourText + ":" + minuteText)
            == match (ParseUnsigned(Trim(hourText), U32_MAX), ParseUnsigned(Trim(minuteText), U32_MAX))
               case (Some(h), Some(m)) => if h < 24 && m < 60 then Some(60 * h + m) else None
               case _ => None
    ensures ParseHhmm(hourText) == None
  {
    hide ParseUnsigned, TrimStart, TrimEnd, Trim, ParseHhmm, IsWhitespace;
    TrimParts(hourText);
    TrimParts(minuteText);
    TrimmedTime(hourText, minuteText);
    NoColonLeft(hourText);
    HhmmOf(hourText + ":" + minuteText, TrimStart(hourText), TrimEnd(minuteText));
    HhmmNone(hourText);
  }

  lemma HhmmOf(value: string, h: string, m: string)
    requires Trim(value) == h + ":" + m && ':' !in h
    ensures ParseHhmm(value)
            == match (ParseUnsigned(Trim(h), U32_MAX), ParseUnsigned(Trim(m), U32_MAX))
               case (Some(hour), Some(minute)) => if hour < 24 && minute < 60 then Some(60 * hour + minute) else None
               case _ => None
  {
    hide ParseUnsigned, Trim, IndexOf;
    ColonAt(h, m);
    var text := h + ":" + m;
    assert text[..|h|] == h && text[|h| + 1..] == m;
  }

  lemma HhmmNone(value: string)
    requires IndexOf(Trim(value), ':') == |Trim(value)|
    ensures ParseHhmm(value) == None
  {
    hide ParseUnsigned, Trim, IndexOf;
  }

  lemma TrimmedTime(hourText: string, minuteText: string)
    ensures Trim(hourText + ":" + minuteText) == TrimStart(hourText) + ":" + TrimEnd(minuteText)
  {
    hide TrimStart, TrimEnd, IsWhitespace;
    ColonIsSolid();
    Associates(hourText, ":", minuteText);
    Associates(TrimStart(hourText), ":", minuteText);
    StartOf(hourText, ":" + minuteText);
    EndOf(TrimStart(hourText), minuteText);
  }

  lemma Associates(a: string, b: string, c: string)
    ensures a + b + c == a + (b + c)
  {
  }

  lemma EndOf(a: string, b: string)
    ensures TrimEnd(a + ":" + b) == a + ":" + TrimEnd(b)
  {
    hide TrimEnd, IsWhitespace;
    ColonIsSolid();
    var front := a + ":";
    assert front[|front| - 1] == ':';
    TrimEndConcat(front, b);
  }

  lemma StartOf(a: string, tail: string)
    requires tail != [] && !IsWhitespace(tail[0])
    ensures TrimStart(a + tail) == TrimStart(a) + tail
  {
    hide TrimStart, IsWhitespace, Blank;
    TrimStartConcat(a, tail);
    StartsSolid(tail);
    if Blank(a) {
      TrimStartBlank(a);
      assert [] + tail == tail;
    }
  }

  lemma ColonIsSolid()
    ensures !IsWhitespace(':')
  {
  }

  lemma StartsSolid(s: string)
    requires s != [] && !IsWhitespace(s[0])
    ensures TrimStart(s) == s
  {
  }

  lemma ColonAt(front: string, back: string)
    requires ':' !in front
    ensures IndexOf(front + ":" + back, ':') == |front|
  {
    hide IndexOf;
    var text := front + ":" + back;
    var i := IndexOf(text, ':');
    assert text[|front|] == ':';
    assert forall j | 0 <= j < |front| :: text[j] == front[j];
    assert forall j | 0 <= j < i :: text[..i][j] == text[j];
  }

  lemma NoColonLeft(s: string)
    requires ':' !in s
    ensures ':' !in TrimStart(s) && IndexOf(Trim(s), ':') == |Trim(s)|
  {
    hide TrimStart, TrimEnd, IndexOf, IsWhitespace;
    var t := TrimStart(s);
    assert forall i | 0 <= i < |t| :: t[i] == s[|s| - |t| + i];
    var e := TrimEnd(t);
    assert forall i | 0 <= i < |e| :: e[i] == t[i];
    NoColon(e);
  }

  // ------------------------------------------------------------------- time zones

  /** 32-bit arithmetic wraps around. */
  function WrapI32(n: int): (r: int)
    ensures -I32_BOUND <= r < I32_BOUND
    ensures r == n <==> -I32_BOUND <= n < I32_BOUND
  {
    (n + I32_BOUND) % (2 * I32_BOUND) - I32_BOUND
  }

  predicate IsSigned(name: string) {
    name != [] && (name[0] == '+' || name[0] == '-')
  }

  /** The minutes that a sign, an hour and an optional minute spell.  Only the upper bounds of hour and
      minute are checked, so a negative one gets through. */
  function SpelledOffset(name: string): Option<int>
    requires IsSigned(name)
  {
    var rest := name[1..];
    var colon := IndexOf(rest, ':');
    var minuteText := if colon == |rest| then "0" else rest[colon + 1..];
    match (ParseSigned(rest[..colon], I32_BOUND), ParseSigned(minuteText, I32_BOUND))
    case (Some(hour), Some(minute)) =>
      if hour > 23 || minute > 59 then None
      else Some(if name[0] == '+' then hour * 60 + minute else -(hour * 60 + minute))
    case _ => None
  }

  function SignedOffset(name: string): Option<int>
    requires IsSigned(name)
  {
    match SpelledOffset(name)
    case Some(spelled) => Some(WrapI32(spelled))
    case None => None
  }

  function TimezoneOffset(timezone: string): Option<int> {
    var name := LowerAscii(Trim(timezone));
    if name in ["asia/shanghai", "asia/chongqing", "prc", "cst"] then Some(8 * 60)
    else if name in ["utc", "etc/utc", "z", "gmt"] then Some(0)
    else if IsSigned(name) then SignedOffset(name)
    else None
  }

  lemma SignedIsNoName(name: string)
    requires IsSigned(name)
    ensures name !in ["asia/shanghai", "asia/chongqing", "prc", "cst"] && name !in ["utc", "etc/utc", "z", "gmt"]
  {
    assert "asia/shanghai"[0] == 'a' && "asia/chongqing"[0] == 'a' && "prc"[0] == 'p' && "cst"[0] == 'c';
    assert "utc"[0] == 'u' && "etc/utc"[0] == 'e' && "z"[0] == 'z' && "gmt"[0] == 'g';
  }

  /** A signed name is accepted exactly when it spells an offset, and it gets the offset it spells
      exactly when that fits in 32 bits. */
  lemma OffsetAsSpelled(timezone: string)
    requires IsSigned(LowerAscii(Trim(timezone)))
    ensures var spelled := SpelledOffset(LowerAscii(Trim(timezone)));
            && (TimezoneOffset(timezone).Some? <==> spelled.Some?)
            && (spelled.Some? ==>
                  (TimezoneOffset(timezone) == spelled <==> -I32_BOUND <= spelled.value < I32_BOUND))
  {
    hide LowerAscii, Trim, IsSigned, SpelledOffset;
    SignedIsNoName(LowerAscii(Trim(timezone)));
  }

  lemma DigitsMore(s: string, c: char)
    requires AllDigits(s) && '0' <= c <= '9'
    ensures AllDigits(s + [c]) && DigitsValue(s + [c]) == 10 * DigitsValue(s) + (c as int - '0' as int)
  {
    var all := s + [c];
    assert all[..|all| - 1] == s;
  }

  lemma LeastI32()
    ensures ParseSigned("-2147483648", I32_BOUND) == Some(-I32_BOUND)
  {
    var digits := "2147483648";
    assert "-2147483648"[1..] == digits;
    LeastDigits();
  }

  lemma LeastDigits()
    ensures AllDigits("2147483648") && DigitsValue("2147483648") == I32_BOUND
  {
    hide AllDigits, DigitsValue;
    NoDigits();
    DigitsMore("", '2');
    DigitsMore("2", '1');
    DigitsMore("21", '4');
    DigitsMore("214", '7');
    DigitsMore("2147", '4');
    DigitsMore("21474", '8');
    DigitsMore("214748", '3');
    DigitsMore("2147483", '6');
    DigitsMore("21474836", '4');
    DigitsMore("214748364", '8');
    assert "" + ['2'] == "2" && "2" + ['1'] == "21" && "21" + ['4'] == "214" && "214" + ['7'] == "2147";
    assert "2147" + ['4'] == "21474" && "21474" + ['8'] == "214748" && "214748" + ['3'] == "2147483";
    assert "2147483" + ['6'] == "21474836" && "21474836" + ['4'] == "214748364";
    assert "214748364" + ['8'] == "2147483648";
  }

  lemma NoDigits()
    ensures AllDigits("") && DigitsValue("") == 0
  {
  }

  lemma ZeroMinute()
    ensures ParseSigned("0", I32_BOUND) == Some(0)
  {
    assert "0"[..0] == "";
    assert AllDigits("0");
  }

  lemma LeastLower(name: string)
    requires name == "+-2147483648"
    ensures LowerAscii(name) == name && IsSigned(name)
  {
    hide LowerAscii;
    LowerFixed(name);
  }

  lemma LeastTrims(name: string)
    requires name == "+-2147483648"
    ensures Trim(name) == name
  {
    hide Trim, IsWhitespace;
    assert name[0] == '+' && name[11] == '8';
    NotBlank();
    TrimFixed(name);
  }

  lemma NotBlank()
    ensures !IsWhitespace('+') && !IsWhitespace('8')
  {
  }

  lemma NoColon(s: string)
    requires forall i | 0 <= i < |s| :: s[i] != ':'
    ensures IndexOf(s, ':') == |s|
  {
    hide IndexOf;
  }

  /** A name whose hour is the least there is. */
  lemma LeastHour(name: string, hour: string)
    requires name == ['+'] + hour && ParseSigned(hour, I32_BOUND) == Some(-I32_BOUND)
    requires forall i | 0 <= i < |hour| :: hour[i] != ':'
    ensures SpelledOffset(name) == Some(-I32_BOUND * 60)
  {
    hide ParseSigned, IndexOf;
    assert name[1..] == hour;
    assert hour[..|hour|] == hour;
    NoColon(hour);
    ZeroMinute();
  }

  lemma SignedName(timezone: string, name: string)
    requires name == LowerAscii(Trim(timezone)) && IsSigned(name)
    ensures TimezoneOffset(timezone) == SignedOffset(name)
  {
    hide LowerAscii, Trim, IsSigned, SignedOffset;
    SignedIsNoName(name);
  }

  /** A name that spells some 128 billion minutes back and gets the offset zero. */
  lemma OffsetCanWrap()
    ensures SpelledOffset("+-2147483648") == Some(-I32_BOUND * 60)
    ensures TimezoneOffset("+-2147483648") == Some(0)
  {
    hide LowerAscii, Trim, ParseSigned, SpelledOffset, TimezoneOffset;
    var name, hour := "+-2147483648", "-2147483648";
    LeastTrims(name);
    LeastLower(name);
    LeastI32();
    assert name == ['+'] + hour;
    LeastHour(name, hour);
    SignedName(name, name);
    assert WrapI32(-I32_BOUND * 60) == 0;
  }

  // ------------------------------------------------------------------ JSON reading

  function RealField(value: Json, key: string): Option<real> {
    match value.Get(key)
    case None => Some(0.0)
    case Some(Num(n)) => Some(n)
    case Some(_) => None
  }

  function RatesFromValue(value: Json): (r: Option<Rates>)
    ensures r.Some? ==> RatesValid(r.value)
  {
    if !value.Obj? then None
    else
      match (RealField(value, "cached_input"), RealField(value, "cache_miss_input"), RealField(value, "output"))
      case (Some(cached), Some(miss), Some(output)) =>
        if cached >= 0.0 && miss >= 0.0 && output >= 0.0 then Some(Rates(cached, miss, output)) else None
      case _ => None
  }

  function RatesToValue(rates: Rates): Json {
    Obj(map["cached_input" := Num(rates.cachedInput),
            "cache_miss_input" := Num(rates.cacheMissInput),
            "output" := Num(rates.output)])
  }

  /** Reads the given keys of a rate map in turn; a later key wins over an earlier one that trims
      to the same name. */
  function ReadRates(fields: map<string, Json>, keys: seq<string>, found: map<string, Rates>)
    : Result<map<string, Rates>, Error>
    requires forall k | k in keys :: k in fields
    decreases |keys|
  {
    if keys == [] then Ok(found)
    else
      var key := Trim(keys[0]);
      if key == "" then Err(EmptyKey)
      else
        match RatesFromValue(fields[keys[0]])
        case None => Err(BadRates)
        case Some(rates) => ReadRates(fields, keys[1..], found[key := rates])
  }

  function RateMapFromValue(value: Option<Json>): Result<map<string, Rates>, Error> {
    match value
    case None => Ok(map[])
    case Some(Obj(fields)) => ReadRates(fields, Ascending(fields.Keys), map[])
    case Some(_) => Err(NotAnObject)
  }

  function RateMapToValue(rates: map<string, Rates>): Json {
    Obj(map k | k in rates :: RatesToValue(rates[k]))
  }

  function WindowFromValue(value: Json): (r: Result<PeakWindow, Error>)
    ensures r.Ok? ==> r.value.toMinute < 1440
  {
    match (value.GetStr("from"), value.GetStr("to"))
    case (Some(from), Some(to)) =>
      (match (ParseHhmm(from), ParseHhmm(to))
       case (Some(f), Some(t)) => Ok(PeakWindow(f, t))
       case _ => Err(BadWindow))
    case _ => Err(BadWindow)
  }

  function WindowToValue(w: PeakWindow): Json {
    Obj(map["from" := Str(MinuteToHhmm(w.fromMinute)), "to" := Str(MinuteToHhmm(w.toMinute))])
  }

  function ReadWindows(items: seq<Json>): Result<seq<PeakWindow>, Error> {
    if items == [] then Ok([])
    else
      match (WindowFromValue(items[0]), ReadWindows(items[1..]))
      case (Err(e), _) => Err(e)
      case (_, Err(e)) => Err(e)
      case (Ok(w), Ok(ws)) => Ok([w] + ws)
  }

  lemma {:induction false} ReadWindowsBounded(items: seq<Json>)
    ensures var r := ReadWindows(items);
            r.Ok? ==> forall i | 0 <= i < |r.value| :: r.value[i].toMinute < 1440
  {
    hide WindowFromValue;
    if items != [] {
      ReadWindowsBounded(items[1..]);
    }
  }

  predicate WindowsValid(windows: seq<PeakWindow>) {
    forall i | 0 <= i < |windows| :: windows[i].fromMinute < windows[i].toMinute < 1440
  }

  /** An array of windows, each starting before it ends. */
  function WindowsFromValue(value: Json): (r: Result<seq<PeakWindow>, Error>)
    ensures r.Ok? ==> WindowsValid(r.value)
  {
    match value
    case Arr(items) =>
      ReadWindowsBounded(items);
      (match ReadWindows(items)
       case Err(e) => Err(e)
       case Ok(ws) =>
         if exists i | 0 <= i < |ws| :: ws[i].fromMinute >= ws[i].toMinute then Err(WindowOrder) else Ok(ws))
    case _ => Err(BadWindow)
  }

  function WindowsToValue(windows: seq<PeakWindow>): Json {
    Arr(seq(|windows|, i requires 0 <= i < |windows| => WindowToValue(windows[i])))
  }

  predicate MultiplierValid(m: real) {
    1.0 <= m <= MAX_PEAK_MULTIPLIER
  }

  function TextField(value: Json, key: string, default: string): string {
    match value.GetStr(key)
    case Some(text) => Trim(text)
    case None => Trim(default)
  }

  function MultiplierFrom(value: Option<Json>): Result<real, Error> {
    match value
    case None => Ok(2.0)
    case Some(Num(n)) => if MultiplierValid(n) then Ok(n) else Err(BadMultiplier)
    case Some(_) => Err(BadMultiplier)
  }

  function EnabledFrom(value: Option<Json>): Result<bool, Error> {
    match value
    case None => Ok(true)
    case Some(Bool(flag)) => Ok(flag)
    case Some(_) => Err(BadFlag)
  }

  function WindowsFrom(value: Option<Json>): (r: Result<seq<PeakWindow>, Error>)
    ensures r.Ok? ==> WindowsValid(r.value)
  {
    match value
    case None => Ok([])
    case Some(windows) => WindowsFromValue(windows)
  }

  function PeakValleyFromValue(value: Json): Result<PeakValley, Error> {
    if !value.Obj? then Err(NotAnObject)
    else
      var timezone := TextField(value, "timezone", "Asia/Shanghai");
      match TimezoneOffset(timezone)
      case None => Err(UnsupportedTimezone)
      case Some(offset) =>
        match (MultiplierFrom(value.Get("multiplier")), EnabledFrom(value.Get("enabled")),
               WindowsFrom(value.Get("windows")))
        case (Ok(multiplier), Ok(enabled), Ok(windows)) =>
          Ok(PeakValley(enabled, timezone, offset, multiplier, windows))
        case (Err(e), _, _) => Err(e)
        case (_, Err(e), _) => Err(e)
        case (_, _, Err(e)) => Err(e)
  }

  function PeakValleyToValue(p: PeakValley): Json {
    Obj(map["enabled" := Bool(p.enabled), "timezone" := Str(p.timezone), "multiplier" := Num(p.multiplier),
            "windows" := WindowsToValue(p.windows)])
  }

  function DefaultPeakValley(): PeakValley {
    PeakValley(true, "Asia/Shanghai", 480, 2.0, [PeakWindow(540, 720), PeakWindow(840, 1080)])
  }

  function DefaultTable(): Table {
    Table("0.0.0", "CNY", "per_1m_tokens", DefaultPeakValley(), map[], map[])
  }

  function PeakValleyFrom(value: Option<Json>): Result<PeakValley, Error> {
    match value
    case None => Ok(DefaultPeakValley())
    case Some(v) => PeakValleyFromValue(v)
  }

  function TableFromValue(value: Json): Result<Table, Error> {
    if !value.Obj? then Err(NotAnObject)
    else
      var revision := TextField(value, "revision", "0.0.0");
      if revision == "" then Err(EmptyRevision)
      else
        match (PeakValleyFrom(value.Get("peak_valley")), RateMapFromValue(value.Get("groups")),
               RateMapFromValue(value.Get("rates")))
        case (Ok(peakValley), Ok(groups), Ok(rates)) =>
          Ok(Table(revision, TextField(value, "currency", "CNY"), TextField(value, "unit", "per_1m_tokens"),
                   peakValley, groups, rates))
        case (Err(e), _, _) => Err(e)
        case (_, Err(e), _) => Err(e)
        case (_, _, Err(e)) => Err(e)
  }

  function TableToValue(t: Table): Json {
    Obj(map["revision" := Str(t.revision), "currency" := Str(t.currency), "unit" := Str(t.unit),
            "peak_valley" := PeakValleyToValue(t.peakValley),
            "groups" := RateMapToValue(t.groups), "rates" := RateMapToValue(t.rates)])
  }

  // -------------------------------------------------------------------- overrides

  /** The peak-rule part of an override document, read and checked. */
  datatype PeakOverride = PeakOverride(
    enabled: Option<bool>,
    multiplier: Option<real>,
    timezone: Option<string>,
    windows: Option<seq<PeakWindow>>)

  /** A sparse override document, read and checked. */
  datatype Override = Override(
    revision: Option<string>,
    currency: Option<string>,
    unit: Option<string>,
    peak: PeakOverride,
    rates: map<string, Rates>,
    groups: map<string, Rates>)

  function NonemptyField(value: Json, key: string): Option<string> {
    match value.GetStr(key)
    case Some(text) => if Trim(text) == "" then None else Some(Trim(text))
    case None => None
  }

  function OptionalFlag(value: Option<Json>): Option<bool> {
    match value case Some(Bool(flag)) => Some(flag) case _ => None
  }

  function OptionalMultiplier(value: Option<Json>): Result<Option<real>, Error> {
    match value
    case Some(Num(n)) => if MultiplierValid(n) then Ok(Some(n)) else Err(BadMultiplier)
    case _ => Ok(None)
  }

  function OptionalTimezone(value: Option<string>): Result<Option<string>, Error> {
    match value
    case None => Ok(None)
    case Some(text) => if TimezoneOffset(Trim(text)).Some? then Ok(Some(Trim(text))) else Err(UnsupportedTimezone)
  }

  function OptionalWindows(value: Option<Json>): (r: Result<Option<seq<PeakWindow>>, Error>)
    ensures r.Ok? && r.value.Some? ==> WindowsValid(r.value.value)
  {
    match value
    case None => Ok(None)
    case Some(v) => (match WindowsFromValue(v) case Ok(ws) => Ok(Some(ws)) case Err(e) => Err(e))
  }

  function ReadPeakOverride(value: Json): Result<PeakOverride, Error> {
    match OptionalMultiplier(value.Get("peak_multiplier"))
    case Err(e) => Err(e)
    case Ok(multiplier) =>
      match OptionalTimezone(value.GetStr("timezone"))
      case Err(e) => Err(e)
      case Ok(timezone) =>
        match OptionalWindows(value.Get("peak_windows"))
        case Err(e) => Err(e)
        case Ok(windows) =>
          Ok(PeakOverride(OptionalFlag(value.Get("peak_valley_enabled")), multiplier, timezone, windows))
  }

  /** Reading fails for reasons in the document alone, in the order its fields are checked. */
  function ReadOverride(value: Json): Result<Override, Error> {
    if !value.Obj? then Err(NotAnObject)
    else
      match ReadPeakOverride(value)
      case Err(e) => Err(e)
      case Ok(peak) =>
        match RateMapFromValue(value.Get("rates"))
        case Err(e) => Err(e)
        case Ok(rates) =>
          match RateMapFromValue(value.Get("groups"))
          case Err(e) => Err(e)
          case Ok(groups) =>
            Ok(Override(NonemptyField(value, "revision"), NonemptyField(value, "currency"),
                        NonemptyField(value, "unit"), peak, rates, groups))
  }

  function ApplyToPeakValley(p: PeakValley, o: PeakOverride): PeakValley {
    PeakValley(
      Or(o.enabled, p.enabled),
      Or(o.timezone, p.timezone),
      if o.timezone.Some? then Or(TimezoneOffset(o.timezone.value), p.utcOffsetMinutes) else p.utcOffsetMinutes,
      Or(o.multiplier, p.multiplier),
      Or(o.windows, p.windows))
  }

  function PeakValleyWithOverride(p: PeakValley, value: Json): Result<PeakValley, Error> {
    match ReadPeakOverride(value)
    case Err(e) => Err(e)
    case Ok(o) => Ok(ApplyToPeakValley(p, o))
  }

  function ApplyOverride(t: Table, o: Override): Table {
    Table(Or(o.revision, t.revision), Or(o.currency, t.currency), Or(o.unit, t.unit),
          ApplyToPeakValley(t.peakValley, o.peak), t.groups + o.groups, t.rates + o.rates)
  }

  function WithOverrideValue(t: Table, value: Json): Result<Table, Error> {
    match ReadOverride(value)
    case Err(e) => Err(e)
    case Ok(o) => Ok(ApplyOverride(t, o))
  }

  // -------------------------------------------------------------- imperative forms

  /** The loop that fills a rate map, in key order. */
  method ParseRateMap(value: Option<Json>) returns (r: Result<map<string, Rates>, Error>)
    ensures r == RateMapFromValue(value)
  {
    hide RatesFromValue, Trim;
    match value {
      case None =>
        return Ok(map[]);
      case Some(Obj(fields)) =>
        var keys := Ascending(fields.Keys);
        var found: map<string, Rates> := map[];
        assert keys[0..] == keys;
        for i := 0 to |keys|
          invariant ReadRates(fields, keys[i..], found) == ReadRates(fields, keys, map[])
        {
          assert keys[i] in keys && keys[i..][1..] == keys[i + 1..];
          var key := Trim(keys[i]);
          if key == "" {
            return Err(EmptyKey);
          }
          var rates := RatesFromValue(fields[keys[i]]);
          if rates.None? {
            return Err(BadRates);
          }
          found := found[key := rates.value];
        }
        return Ok(found);
      case Some(_) =>
        return Err(NotAnObject);
    }
  }

  /** Edits a copy of the peak rule field by field. */
  method OverridePeakValley(p: PeakValley, value: Json) returns (r: Result<PeakValley, Error>)
    requires value.Obj?
    ensures r == PeakValleyWithOverride(p, value)
  {
    hide TimezoneOffset, Trim, WindowsFromValue, MultiplierValid;
    var next := p;
    var enabled, multiplier := value.Get("peak_valley_enabled"), value.Get("peak_multiplier");
    if enabled.Some? && enabled.value.Bool? {
      next := next.(enabled := enabled.value.flag);
    }
    if multiplier.Some? && multiplier.value.Num? {
      if !MultiplierValid(multiplier.value.number) {
        return Err(BadMultiplier);
      }
      next := next.(multiplier := multiplier.value.number);
    }
    var timezone := value.GetStr("timezone");
    if timezone.Some? {
      var name := Trim(timezone.value);
      var offset := TimezoneOffset(name);
      if offset.None? {
        return Err(UnsupportedTimezone);
      }
      next := next.(utcOffsetMinutes := offset.value, timezone := name);
    }
    var windowList := value.Get("peak_windows");
    if windowList.Some? {
      var windows := WindowsFromValue(windowList.value);
      if windows.Err? {
        return Err(windows.error);
      }
      next := next.(windows := windows.value);
    }
    return Ok(next);
  }

  /** Edits a copy of the table field by field. */
  method WithOverride(t: Table, value: Json) returns (r: Result<Table, Error>)
    ensures r == WithOverrideValue(t, value)
  {
    hide RateMapFromValue, Trim, ReadPeakOverride, ApplyToPeakValley;
    if !value.Obj? {
      return Err(NotAnObject);
    }
    var next := t;
    var revision, currency, unit := value.GetStr("revision"), value.GetStr("currency"), value.GetStr("unit");
    if revision.Some? && Trim(revision.value) != "" {
      next := next.(revision := Trim(revision.value));
    }
    if currency.Some? && Trim(currency.value) != "" {
      next := next.(currency := Trim(currency.value));
    }
    if unit.Some? && Trim(unit.value) != "" {
      next := next.(unit := Trim(unit.value));
    }
    var peakValley := OverridePeakValley(next.peakValley, value);
    if peakValley.Err? {
      return Err(peakValley.error);
    }
    next := next.(peakValley := peakValley.value);
    var rates := ParseRateMap(value.Get("rates"));
    if rates.Err? {
      return Err(rates.error);
    }
    next := next.(rates := next.rates + rates.value);
    var groups := ParseRateMap(value.Get("groups"));
    if groups.Err? {
      return Err(groups.error);
    }
    next := next.(groups := next.groups + groups.value);
    return Ok(next);
  }

  // -------------------------------------------------------------------- invariants

  predicate RatesValid(r: Rates) {
    r.cachedInput >= 0.0 && r.cacheMissInput >= 0.0 && r.output >= 0.0
  }

  predicate RateMapValid(m: map<string, Rates>) {
    forall k | k in m :: k != "" && Trim(k) == k && RatesValid(m[k])
  }

  predicate PeakValleyValid(p: PeakValley) {
    && Trim(p.timezone) == p.timezone
    && TimezoneOffset(p.timezone) == Some(p.utcOffsetMinutes)
    && MultiplierValid(p.multiplier)
    && WindowsValid(p.windows)
  }

  predicate TableValid(t: Table) {
    && t.revision != "" && Trim(t.revision) == t.revision
    && Trim(t.currency) == t.currency
    && Trim(t.unit) == t.unit
    && PeakValleyValid(t.peakValley)
    && RateMapValid(t.groups)
    && RateMapValid(t.rates)
  }

  lemma {:induction false} ReadRatesValid(fields: map<string, Json>, keys: seq<string>, found: map<string, Rates>)
    requires forall k | k in keys :: k in fields
    requires RateMapValid(found)
    ensures ReadRates(fields, keys, found).Ok? ==> RateMapValid(ReadRates(fields, keys, found).value)
    decreases |keys|
  {
    hide RatesFromValue, RatesValid, Trim;
    if keys != [] {
      var key := Trim(keys[0]);
      TrimIdempotent(keys[0]);
      var rates := RatesFromValue(fields[keys[0]]);
      if key != "" && rates.Some? {
        ReadRatesValid(fields, keys[1..], found[key := rates.value]);
      }
    }
  }

  lemma NoRatesValid()
    ensures RateMapValid(map[])
  {
  }

  lemma RateMapFromValueValid(value: Option<Json>)
    ensures RateMapFromValue(value).Ok? ==> RateMapValid(RateMapFromValue(value).value)
  {
    hide Ascending, ReadRates, RateMapValid;
    NoRatesValid();
    if value.Some? && value.value.Obj? {
      var fields := value.value.fields;
      ReadRatesValid(fields, Ascending(fields.Keys), map[]);
    }
  }

  lemma TextFieldTrimmed(value: Json, key: string, default: string)
    ensures Trim(TextField(value, key, default)) == TextField(value, key, default)
  {
    TrimIdempotent(default);
    if value.GetStr(key).Some? {
      TrimIdempotent(value.GetStr(key).value);
    }
  }

  lemma ShanghaiOffset()
    ensures Trim("Asia/Shanghai") == "Asia/Shanghai" && TimezoneOffset("Asia/Shanghai") == Some(480)
  {
    hide LowerAscii, Trim;
    TrimFixed("Asia/Shanghai");
    ShanghaiLower();
  }

  lemma ShanghaiLower()
    ensures LowerAscii("Asia/Shanghai") == "asia/shanghai"
  {
    var s := "Asia/Shanghai";
    var r, t := LowerAscii(s), "asia/shanghai";
    assert r[0] == t[0] && r[5] == t[5];
    assert forall i | 0 <= i < 13 && i != 0 && i != 5 :: r[i] == s[i];
    assert forall i | 0 <= i < 13 && i != 0 && i != 5 :: s[i] == t[i];
  }

  lemma DefaultValid()
    ensures TableValid(DefaultTable())
  {
    hide TimezoneOffset, Trim;
    ShanghaiOffset();
    TrimFixed("0.0.0");
    TrimFixed("CNY");
    TrimFixed("per_1m_tokens");
  }

  lemma PeakValleyFromValid(value: Option<Json>)
    ensures PeakValleyFrom(value).Ok? ==> PeakValleyValid(PeakValleyFrom(value).value)
  {
    hide TimezoneOffset, Trim, WindowsFrom, TextField;
    if value.Some? {
      TextFieldTrimmed(value.value, "timezone", "Asia/Shanghai");
    } else {
      ShanghaiOffset();
    }
  }

  /** Every table the parser accepts satisfies the invariant. */
  lemma ParsedValid(value: Json)
    ensures TableFromValue(value).Ok? ==> TableValid(TableFromValue(value).value)
  {
    hide PeakValleyFrom, RateMapFromValue, TextField, Trim, PeakValleyValid, RateMapValid;
    TextFieldTrimmed(value, "revision", "0.0.0");
    TextFieldTrimmed(value, "currency", "CNY");
    TextFieldTrimmed(value, "unit", "per_1m_tokens");
    PeakValleyFromValid(value.Get("peak_valley"));
    RateMapFromValueValid(value.Get("groups"));
    RateMapFromValueValid(value.Get("rates"));
  }

  predicate PeakOverrideValid(o: PeakOverride) {
    && (o.multiplier.Some? ==> MultiplierValid(o.multiplier.value))
    && (o.timezone.Some? ==>
          Trim(o.timezone.value) == o.timezone.value && TimezoneOffset(o.timezone.value).Some?)
    && (o.windows.Some? ==> WindowsValid(o.windows.value))
  }

  /** What an override that was read successfully carries. */
  predicate OverrideValid(o: Override) {
    && (o.revision.Some? ==> o.revision.value != "" && Trim(o.revision.value) == o.revision.value)
    && (o.currency.Some? ==> Trim(o.currency.value) == o.currency.value)
    && (o.unit.Some? ==> Trim(o.unit.value) == o.unit.value)
    && PeakOverrideValid(o.peak)
    && RateMapValid(o.rates) && RateMapValid(o.groups)
  }

  lemma NonemptyFieldTrimmed(value: Json, key: string)
    ensures var f := NonemptyField(value, key);
            f.Some? ==> f.value != "" && Trim(f.value) == f.value
  {
    if value.GetStr(key).Some? {
      TrimIdempotent(value.GetStr(key).value);
    }
  }

  lemma ReadPeakOverrideValid(value: Json)
    ensures ReadPeakOverride(value).Ok? ==> PeakOverrideValid(ReadPeakOverride(value).value)
  {
    hide TimezoneOffset, Trim, OptionalWindows, MultiplierValid;
    if value.GetStr("timezone").Some? {
      TrimIdempotent(value.GetStr("timezone").value);
    }
  }

  lemma ReadOverrideValid(value: Json)
    ensures ReadOverride(value).Ok? ==> OverrideValid(ReadOverride(value).value)
  {
    hide RateMapFromValue, Trim, NonemptyField, RateMapValid, PeakOverrideValid, ReadPeakOverride;
    NonemptyFieldTrimmed(value, "revision");
    NonemptyFieldTrimmed(value, "currency");
    NonemptyFieldTrimmed(value, "unit");
    ReadPeakOverrideValid(value);
    RateMapFromValueValid(value.Get("rates"));
    RateMapFromValueValid(value.Get("groups"));
  }

  /** Overrides keep the invariant. */
  lemma OverrideKeepsValid(t: Table, value: Json)
    requires TableValid(t)
    ensures WithOverrideValue(t, value).Ok? ==> TableValid(WithOverrideValue(t, value).value)
  {
    hide ReadOverride, TimezoneOffset, Trim, RatesValid, MultiplierValid, WindowsValid;
    ReadOverrideValid(value);
  }

  /** Applying the same override again changes nothing further. */
  lemma OverrideIdempotent(t: Table, value: Json)
    ensures WithOverrideValue(t, value).Ok? ==>
              WithOverrideValue(WithOverrideValue(t, value).value, value) == WithOverrideValue(t, value)
  {
    hide ReadOverride, TimezoneOffset;
    if ReadOverride(value).Ok? {
      var o := ReadOverride(value).value;
      assert t.groups + o.groups + o.groups == t.groups + o.groups;
      assert t.rates + o.rates + o.rates == t.rates + o.rates;
    }
  }

  // -------------------------------------------------------------------- round trip

  function OnKeys(m: map<string, Rates>, keys: seq<string>): map<string, Rates> {
    map k | k in m && k in keys :: m[k]
  }

  lemma OnNoKeys(m: map<string, Rates>, found: map<string, Rates>)
    ensures found + OnKeys(m, []) == found
  {
    assert OnKeys(m, []).Keys == {};
  }

  lemma OnMoreKeys(m: map<string, Rates>, found: map<string, Rates>, keys: seq<string>)
    requires keys != [] && keys[0] in m
    ensures found[keys[0] := m[keys[0]]] + OnKeys(m, keys[1..]) == found + OnKeys(m, keys)
  {
    assert forall k :: k in keys <==> k == keys[0] || k in keys[1..];
  }

  lemma {:induction false} ReadRatesPrinted(m: map<string, Rates>, keys: seq<string>, found: map<string, Rates>)
    requires RateMapValid(m) && forall k | k in keys :: k in m
    ensures ReadRates(RateMapToValue(m).fields, keys, found) == Ok(found + OnKeys(m, keys))
    decreases |keys|
  {
    hide Trim, RatesFromValue, RatesToValue, RatesValid, OnKeys;
    var fields := RateMapToValue(m).fields;
    if keys == [] {
      OnNoKeys(m, found);
    } else {
      var key := keys[0];
      RatesPrinted(m[key]);
      ReadRatesPrinted(m, keys[1..], found[key := m[key]]);
      OnMoreKeys(m, found, keys);
    }
  }

  lemma RatesPrinted(r: Rates)
    requires RatesValid(r)
    ensures RatesFromValue(RatesToValue(r)) == Some(r)
  {
  }

  lemma OnAllKeys(m: map<string, Rates>, keys: seq<string>)
    requires forall k | k in m :: k in keys
    ensures map[] + OnKeys(m, keys) == m
  {
  }

  lemma RateMapRoundTrip(m: map<string, Rates>)
    requires RateMapValid(m)
    ensures RateMapFromValue(Some(RateMapToValue(m))) == Ok(m)
  {
    hide RateMapValid, ReadRates, RatesToValue, Ascending, OnKeys;
    var fields := RateMapToValue(m).fields;
    var keys := Ascending(fields.Keys);
    ReadRatesPrinted(m, keys, map[]);
    OnAllKeys(m, keys);
  }

  lemma WindowRoundTrip(w: PeakWindow)
    requires w.fromMinute < w.toMinute < 1440
    ensures WindowFromValue(WindowToValue(w)) == Ok(w)
  {
    hide MinuteToHhmm, ParseHhmm;
    HhmmRoundTrip(w.fromMinute);
    HhmmRoundTrip(w.toMinute);
  }

  lemma {:induction false} WindowsRoundTrip(windows: seq<PeakWindow>)
    requires WindowsValid(windows)
    ensures ReadWindows(WindowsToValue(windows).items) == Ok(windows)
  {
    hide WindowFromValue, WindowToValue;
    if windows != [] {
      WindowRoundTrip(windows[0]);
      WindowsRoundTrip(windows[1..]);
      assert WindowsToValue(windows).items[1..] == WindowsToValue(windows[1..]).items;
      assert windows == [windows[0]] + windows[1..];
    }
  }

  lemma PeakValleyRoundTrip(p: PeakValley)
    requires PeakValleyValid(p)
    ensures PeakValleyFromValue(PeakValleyToValue(p)) == Ok(p)
  {
    hide TimezoneOffset, Trim, ReadWindows;
    WindowsRoundTrip(p.windows);
    var v := PeakValleyToValue(p);
    assert v.Get("windows") == Some(WindowsToValue(p.windows));
  }

  /** Every valid table, hence every parsed, default or overridden one, survives printing and
      parsing. */
  lemma TableRoundTrip(t: Table)
    requires TableValid(t)
    ensures TableFromValue(TableToValue(t)) == Ok(t)
  {
    hide PeakValleyFromValue, PeakValleyToValue, RateMapFromValue, RateMapToValue, Trim, PeakValleyValid, RateMapValid;
    PeakValleyRoundTrip(t.peakValley);
    RateMapRoundTrip(t.groups);
    RateMapRoundTrip(t.rates);
  }
}
