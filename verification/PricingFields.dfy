/** What a pricing document says, told from its fields. */
module PricingFields {
  import opened Wrappers
  import opened Json
  import opened Text
  import opened Ordered
  import opened Pricing

  // -------------------------------------------------------------------- rates

  /** The field is missing and the rate zero, or holds the rate, which is not negative. */
  predicate IsRate(value: Json, key: string, rate: real) {
    rate >= 0.0 && if value.Get(key).None? then rate == 0.0 else value.Get(key) == Some(Num(rate))
  }

  /** Rates are accepted exactly when each of the three is missing or a number that is not negative. */
  lemma RatesExactly(value: Json, rates: Rates)
    ensures RatesFromValue(value) == Some(rates)
            <==> && value.Obj? && IsRate(value, "cached_input", rates.cachedInput)
                 && IsRate(value, "cache_miss_input", rates.cacheMissInput) && IsRate(value, "output", rates.output)
  {
    RateIs(value, "cached_input", rates.cachedInput);
    RateIs(value, "cache_miss_input", rates.cacheMissInput);
    RateIs(value, "output", rates.output);
  }

  lemma RateIs(value: Json, key: string, rate: real)
    ensures RealField(value, key) == Some(rate) && rate >= 0.0 <==> IsRate(value, key, rate)
  {
  }

  /** The last key, in key order, that trims to the name. */
  predicate IsLastKey(keys: seq<string>, name: string, n: nat) {
    n < |keys| && Trim(keys[n]) == name && forall j | n < j < |keys| :: Trim(keys[j]) != name
  }

  lemma {:induction false} ReadRatesAccepts(fields: map<string, Json>, keys: seq<string>, found: map<string, Rates>)
    requires forall k | k in keys :: k in fields
    ensures ReadRates(fields, keys, found).Ok?
            <==> forall k | k in keys :: Trim(k) != "" && RatesFromValue(fields[k]).Some?
    decreases |keys|
  {
    hide Trim, RatesFromValue;
    if keys != [] {
      var first, rest := keys[0], keys[1..];
      assert forall k :: k in keys <==> k == first || k in rest;
      if Trim(first) != "" && RatesFromValue(fields[first]).Some? {
        ReadRatesAccepts(fields, rest, found[Trim(first) := RatesFromValue(fields[first]).value]);
      }
    }
  }

  /** A name gets the rates of the last key that trims to it, and keeps what it had without one. */
  lemma {:induction false} ReadRatesAt(fields: map<string, Json>, keys: seq<string>, found: map<string, Rates>,
                                      name: string)
    returns (n: int)
    requires forall k | k in keys :: k in fields
    requires ReadRates(fields, keys, found).Ok?
    ensures var r := ReadRates(fields, keys, found).value;
            -1 <= n < |keys|
            && if n >= 0 then
                 IsLastKey(keys, name, n) && name in r && RatesFromValue(fields[keys[n]]) == Some(r[name])
               else
                 && (forall j | 0 <= j < |keys| :: Trim(keys[j]) != name)
                 && (name in r <==> name in found) && (name in found ==> r[name] == found[name])
    decreases |keys|
  {
    hide Trim, RatesFromValue;
    n := -1;
    if keys != [] {
      var first, rest := keys[0], keys[1..];
      var m := ReadRatesAt(fields, rest, found[Trim(first) := RatesFromValue(fields[first]).value], name);
      assert forall j | 1 <= j < |keys| :: keys[j] == rest[j - 1];
      n := if m >= 0 then m + 1 else if Trim(first) == name then 0 else -1;
    }
  }

  /** A rate map is accepted exactly when it is missing, or an object without blank keys whose rates
      are all accepted; of keys that trim to one name the last in key order wins. */
  lemma RateMapExactly(value: Option<Json>, name: string)
    ensures var r := RateMapFromValue(value);
            && (r.Ok? <==>
                  value.None?
                  || (value.value.Obj?
                      && forall k | k in value.value.fields ::
                           Trim(k) != "" && RatesFromValue(value.value.fields[k]).Some?))
            && (r.Ok? && name in r.value ==>
                  && value.Some? && value.value.Obj?
                  && exists k | k in value.value.fields && Trim(k) == name ::
                       && RatesFromValue(value.value.fields[k]) == Some(r.value[name])
                       && forall other | other in value.value.fields && Trim(other) == name :: Leq(other, k))
            && (r.Ok? && name !in r.value && value.Some? && value.value.Obj? ==>
                  forall k | k in value.value.fields :: Trim(k) != name)
  {
    hide Trim, RatesFromValue, ReadRates, Leq, Ascending, StrictlyAscending;
    if value.Some? && value.value.Obj? {
      var fields := value.value.fields;
      KeysAre(fields);
      ReadRatesAccepts(fields, Ascending(fields.Keys), map[]);
      if ReadRates(fields, Ascending(fields.Keys), map[]).Ok? {
        NamedRates(fields, Ascending(fields.Keys), name);
      }
    }
  }

  lemma KeysAre(fields: map<string, Json>)
    ensures var keys := Ascending(fields.Keys);
            StrictlyAscending(keys) && forall k :: k in keys <==> k in fields
  {
    hide StrictlyAscending;
    AscendingSorted(fields.Keys);
  }

  lemma NamedRates(fields: map<string, Json>, keys: seq<string>, name: string)
    requires StrictlyAscending(keys) && forall k :: k in keys <==> k in fields
    requires ReadRates(fields, keys, map[]).Ok?
    ensures var r := ReadRates(fields, keys, map[]).value;
            if name in r then
              exists k | k in fields && Trim(k) == name ::
                && RatesFromValue(fields[k]) == Some(r[name])
                && forall other | other in fields && Trim(other) == name :: Leq(other, k)
            else forall k | k in fields :: Trim(k) != name
  {
    hide Trim, RatesFromValue, ReadRates, Leq;
    var n := ReadRatesAt(fields, keys, map[], name);
    if n >= 0 {
      LastKeyWins(keys, name, n);
      assert keys[n] in keys;
    } else {
      assert forall k | k in keys :: exists j | 0 <= j < |keys| :: keys[j] == k;
    }
  }

  lemma LastKeyWins(keys: seq<string>, name: string, n: nat)
    requires StrictlyAscending(keys) && IsLastKey(keys, name, n)
    ensures forall other | other in keys && Trim(other) == name :: Leq(other, keys[n])
  {
    hide Trim, Leq;
    LeqTotal(keys[n], keys[n]);
  }

  // ------------------------------------------------------------------- peak rule

  /** The windows of the document, one by one and in order. */
  lemma {:induction false} WindowsInOrder(items: seq<Json>)
    ensures var r := ReadWindows(items);
            && (r.Ok? <==> forall i | 0 <= i < |items| :: WindowFromValue(items[i]).Ok?)
            && (r.Ok? ==> |r.value| == |items|
                          && forall i | 0 <= i < |items| :: WindowFromValue(items[i]) == Ok(r.value[i]))
  {
    hide WindowFromValue;
    if items != [] {
      WindowsInOrder(items[1..]);
      assert forall i | 1 <= i < |items| :: items[i] == items[1..][i - 1];
    }
  }

  /** A window is two times of day under `from` and `to`. */
  lemma WindowExactly(value: Json, w: PeakWindow)
    ensures WindowFromValue(value) == Ok(w)
            <==> && value.GetStr("from").Some? && ParseHhmm(value.GetStr("from").value) == Some(w.fromMinute)
                 && value.GetStr("to").Some? && ParseHhmm(value.GetStr("to").value) == Some(w.toMinute)
  {
    hide ParseHhmm;
  }

  /** The text under a key, trimmed, or a default. */
  predicate IsTextOr(value: Json, key: string, default: string, text: string) {
    text == if value.GetStr(key).Some? then Trim(value.GetStr(key).value) else default
  }

  predicate AcceptsWindows(value: Json, windows: seq<PeakWindow>) {
    match value.Get("windows")
    case None => windows == []
    case Some(Arr(items)) =>
      && |windows| == |items|
      && forall i | 0 <= i < |items| ::
           WindowFromValue(items[i]) == Ok(windows[i]) && windows[i].fromMinute < windows[i].toMinute
    case Some(_) => false
  }

  /** A peak rule is accepted exactly when its time zone is known and each other field is missing or
      of its kind: a multiplier from 1 to 100, a flag, an array of windows that start before they end.
      Missing ones are Shanghai time, 2, true and no windows. */
  lemma PeakValleyExactly(value: Json, p: PeakValley)
    ensures PeakValleyFromValue(value) == Ok(p)
            <==> && value.Obj? && IsTextOr(value, "timezone", "Asia/Shanghai", p.timezone)
                 && TimezoneOffset(p.timezone) == Some(p.utcOffsetMinutes)
                 && (if value.Get("multiplier").None? then p.multiplier == 2.0
                     else value.Get("multiplier") == Some(Num(p.multiplier)) && 1.0 <= p.multiplier <= 100.0)
                 && (if value.Get("enabled").None? then p.enabled else value.Get("enabled") == Some(Bool(p.enabled)))
                 && AcceptsWindows(value, p.windows)
  {
    hide TimezoneOffset, Trim, AcceptsWindows, WindowsFrom;
    WindowsAccepted(value, p.windows);
    TextIs(value, "timezone", "Asia/Shanghai", p.timezone);
  }

  lemma TextIs(value: Json, key: string, default: string, text: string)
    requires Trimmed(default)
    ensures TextField(value, key, default) == text <==> IsTextOr(value, key, default, text)
  {
    hide Trim;
    TrimFixed(default);
  }

  lemma WindowsAccepted(value: Json, windows: seq<PeakWindow>)
    ensures WindowsFrom(value.Get("windows")) == Ok(windows) <==> AcceptsWindows(value, windows)
  {
    hide WindowFromValue, ReadWindows;
    match value.Get("windows") {
      case Some(Arr(items)) =>
        WindowsInOrder(items);
        if AcceptsWindows(value, windows) {
          assert ReadWindows(items).value == windows;
        }
      case _ =>
    }
  }

  // ------------------------------------------------------------------- the table

  /** A table is accepted exactly when its revision is not blank and its peak rule and both rate maps
      are accepted; missing parts are revision 0.0.0, yuan, a million tokens, the default rule and no
      rates. */
  lemma TableExactly(value: Json, t: Table)
    ensures TableFromValue(value) == Ok(t)
            <==> && value.Obj? && t.revision != "" && IsTextOr(value, "revision", "0.0.0", t.revision)
                 && IsTextOr(value, "currency", "CNY", t.currency)
                 && IsTextOr(value, "unit", "per_1m_tokens", t.unit)
                 && (if value.Get("peak_valley").None? then IsDefaultRule(t.peakValley)
                     else PeakValleyFromValue(value.Get("peak_valley").value) == Ok(t.peakValley))
                 && RateMapFromValue(value.Get("groups")) == Ok(t.groups)
                 && RateMapFromValue(value.Get("rates")) == Ok(t.rates)
  {
    hide Trim, PeakValleyFromValue, RateMapFromValue, IsTextOr, TextField;
    DefaultsTrimmed();
    TextIs(value, "revision", "0.0.0", t.revision);
    TextIs(value, "currency", "CNY", t.currency);
    TextIs(value, "unit", "per_1m_tokens", t.unit);
  }

  /** Nine to twelve and two to six in Shanghai cost twice as much. */
  predicate IsDefaultRule(p: PeakValley) {
    p.enabled && p.timezone == "Asia/Shanghai" && p.utcOffsetMinutes == 8 * 60 && p.multiplier == 2.0
    && p.windows == [PeakWindow(9 * 60, 12 * 60), PeakWindow(14 * 60, 18 * 60)]
  }

  lemma DefaultsTrimmed()
    ensures Trimmed("0.0.0") && Trimmed("CNY") && Trimmed("per_1m_tokens")
  {
  }

  /** The zones with a name, in any case and with blanks around. */
  lemma NamedZones(timezone: string)
    ensures var name := LowerAscii(Trim(timezone));
            && (name in ["asia/shanghai", "asia/chongqing", "prc", "cst"] ==> TimezoneOffset(timezone) == Some(480))
            && (name in ["utc", "etc/utc", "z", "gmt"] ==> TimezoneOffset(timezone) == Some(0))
            && (TimezoneOffset(timezone).Some? ==>
                  name in ["asia/shanghai", "asia/chongqing", "prc", "cst", "utc", "etc/utc", "z", "gmt"]
                  || IsSigned(name))
  {
    hide LowerAscii, Trim, SignedOffset, IsSigned;
    assert "utc"[0] == 'u' && "etc/utc"[0] == 'e' && "z"[0] == 'z' && "gmt"[0] == 'g';
    assert "asia/shanghai"[0] == 'a' && "asia/chongqing"[0] == 'a' && "prc"[0] == 'p' && "cst"[0] == 'c';
  }
}
