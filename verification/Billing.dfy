/**
 * Peak and off-peak billing of a completion timestamp
 * (crates/core/src/pricing.rs).  A timestamp is given by the fields the
 * RFC 3339 reader extracts (section 5.6 of RFC 3339).
 */
module Billing {
  import opened Wrappers
  import opened CivilDate
  import opened Pricing

  const DAY: int := 24 * 60

  datatype Timestamp = Timestamp(date: Date, hour: int, minute: int, offsetMinutes: int)

  /** The checks the reader makes; it does not check the day against the month. */
  predicate Accepted(t: Timestamp) {
    1 <= t.date.month <= 12 && 1 <= t.date.day <= 31 && t.hour <= 23 && t.minute <= 59
  }

  function UtcMinutes(t: Timestamp): int {
    DaysFromCivil(t.date.year, t.date.month, t.date.day) * DAY + t.hour * 60 + t.minute - t.offsetMinutes
  }

  function LocalMinuteOfDay(t: Timestamp, utcOffsetMinutes: int): (m: nat)
    ensures m < 1440
  {
    (UtcMinutes(t) + utcOffsetMinutes) % DAY
  }

  datatype BillingPeriod = BillingPeriod(name: string, multiplier: real)

  predicate IsActive(p: PeakValley) {
    p.enabled && p.windows != [] && p.multiplier > 1.0
  }

  predicate InPeak(windows: seq<PeakWindow>, minute: nat) {
    exists i | 0 <= i < |windows| :: windows[i].fromMinute <= minute < windows[i].toMinute
  }

  /** The period of a timestamp; one that could not be read is off-peak. */
  function PeriodFor(p: PeakValley, t: Option<Timestamp>): BillingPeriod {
    if IsActive(p) && t.Some? && Accepted(t.value)
       && InPeak(p.windows, LocalMinuteOfDay(t.value, p.utcOffsetMinutes)) then
      BillingPeriod("peak", p.multiplier)
    else BillingPeriod("off_peak", 1.0)
  }

  /** A timestamp is billed at the peak multiplier exactly when the rule is enabled and raises the
      price, the timestamp is accepted, and its local minute lies in some window, the start included
      and the end not; everything else is off-peak at 1. */
  lemma PeriodExactly(p: PeakValley, t: Timestamp)
    ensures var minute := (t.hour * 60 + t.minute - t.offsetMinutes + p.utcOffsetMinutes) % 1440;
            var readable := 1 <= t.date.month <= 12 && 1 <= t.date.day <= 31 && t.hour <= 23 && t.minute <= 59;
            PeriodFor(p, Some(t))
            == if p.enabled && p.multiplier > 1.0 && readable
                  && exists i | 0 <= i < |p.windows| :: p.windows[i].fromMinute <= minute < p.windows[i].toMinute
               then BillingPeriod("peak", p.multiplier) else BillingPeriod("off_peak", 1.0)
  {
    hide LocalMinuteOfDay;
    DateCancels(t, p.utcOffsetMinutes);
  }

  /** A timestamp that could not be read is off-peak. */
  lemma UnreadableIsOffPeak(p: PeakValley)
    ensures PeriodFor(p, None) == BillingPeriod("off_peak", 1.0)
  {
  }

  // ----------------------------------------------- one instant, many notations

  /** A wall-clock reading of a real moment. */
  predicate IsReading(t: Timestamp) {
    IsValid(t.date) && 0 <= t.hour <= 23 && 0 <= t.minute <= 59
  }

  /** The same moment read on a clock one minute further ahead of UTC. */
  function Ahead(t: Timestamp): Timestamp {
    if t.minute < 59 then t.(minute := t.minute + 1, offsetMinutes := t.offsetMinutes + 1)
    else if t.hour < 23 then t.(hour := t.hour + 1, minute := 0, offsetMinutes := t.offsetMinutes + 1)
    else Timestamp(NextDay(t.date), 0, 0, t.offsetMinutes + 1)
  }

  /** The same moment read on a clock one minute less ahead of UTC. */
  function Behind(t: Timestamp): Timestamp {
    if t.minute > 0 then t.(minute := t.minute - 1, offsetMinutes := t.offsetMinutes - 1)
    else if t.hour > 0 then t.(hour := t.hour - 1, minute := 59, offsetMinutes := t.offsetMinutes - 1)
    else Timestamp(PreviousDay(t.date), 23, 59, t.offsetMinutes - 1)
  }

  /** The same moment read with an offset `k` minutes larger. */
  function Reread(t: Timestamp, k: int): Timestamp
    decreases if k >= 0 then k else -k
  {
    if k == 0 then t else if k > 0 then Reread(Ahead(t), k - 1) else Reread(Behind(t), k + 1)
  }

  lemma AheadSame(t: Timestamp)
    requires IsReading(t)
    ensures IsReading(Ahead(t)) && UtcMinutes(Ahead(t)) == UtcMinutes(t) && Behind(Ahead(t)) == t
  {
    hide DaysFromCivil, MonthLength;
    NeighbourDays(t.date);
    NextDayCounts(t.date);
  }

  lemma BehindSame(t: Timestamp)
    requires IsReading(t)
    ensures IsReading(Behind(t)) && UtcMinutes(Behind(t)) == UtcMinutes(t)
  {
    hide DaysFromCivil, MonthLength;
    NeighbourDays(t.date);
    NextDayCounts(PreviousDay(t.date));
  }

  /** Rewriting a timestamp with any other offset keeps its instant. */
  lemma {:induction false} RereadSame(t: Timestamp, k: int)
    requires IsReading(t)
    ensures IsReading(Reread(t, k)) && UtcMinutes(Reread(t, k)) == UtcMinutes(t)
    ensures Reread(t, k).offsetMinutes == t.offsetMinutes + k
    decreases if k >= 0 then k else -k
  {
    hide UtcMinutes, IsReading;
    if k > 0 {
      AheadSame(t);
      RereadSame(Ahead(t), k - 1);
    } else if k < 0 {
      BehindSame(t);
      RereadSame(Behind(t), k + 1);
    }
  }

  lemma ReadingAccepted(t: Timestamp)
    requires IsReading(t)
    ensures Accepted(t)
  {
  }

  /** Equal instants are billed alike, whatever offset they are written with. */
  lemma SameInstantSamePeriod(p: PeakValley, t: Timestamp, k: int)
    requires IsReading(t)
    ensures PeriodFor(p, Some(Reread(t, k))) == PeriodFor(p, Some(t))
  {
    hide UtcMinutes, IsReading, Accepted, Reread;
    RereadSame(t, k);
    ReadingAccepted(t);
    ReadingAccepted(Reread(t, k));
  }

  /** Two readings of one instant always are such rewritings of each other: nothing but the offset
      tells them apart. */
  lemma SameInstantIsReread(a: Timestamp, b: Timestamp)
    requires IsReading(a) && IsReading(b) && UtcMinutes(a) == UtcMinutes(b)
    ensures b == Reread(a, b.offsetMinutes - a.offsetMinutes)
  {
    hide UtcMinutes, Reread;
    var c := Reread(a, b.offsetMinutes - a.offsetMinutes);
    RereadSame(a, b.offsetMinutes - a.offsetMinutes);
    ReadingUnique(b, c);
  }

  /** The offset and the instant determine the reading. */
  lemma ReadingUnique(a: Timestamp, b: Timestamp)
    requires IsReading(a) && IsReading(b)
    requires UtcMinutes(a) == UtcMinutes(b) && a.offsetMinutes == b.offsetMinutes
    ensures a == b
  {
    hide DaysFromCivil, IsValid;
    CountsAreOrdered(a.date, b.date);
    var da := DaysFromCivil(a.date.year, a.date.month, a.date.day);
    var db := DaysFromCivil(b.date.year, b.date.month, b.date.day);
    assert da * 1440 + (a.hour * 60 + a.minute) == db * 1440 + (b.hour * 60 + b.minute);
    assert 0 <= a.hour * 60 + a.minute < 1440 && 0 <= b.hour * 60 + b.minute < 1440;
    assert da == db;
  }

  /** The date cancels: the local minute depends on the time of day and the offsets alone. */
  lemma DateCancels(t: Timestamp, utcOffsetMinutes: int)
    ensures LocalMinuteOfDay(t, utcOffsetMinutes)
            == (t.hour * 60 + t.minute - t.offsetMinutes + utcOffsetMinutes) % DAY
  {
    hide DaysFromCivil;
    var days := DaysFromCivil(t.date.year, t.date.month, t.date.day);
    var rest := t.hour * 60 + t.minute - t.offsetMinutes + utcOffsetMinutes;
    assert (days * 1440 + rest) % 1440 == rest % 1440;
  }

  /** Two moments a whole number of days apart are billed alike. */
  lemma SameClockSamePeriod(p: PeakValley, t: Timestamp, date: Date)
    requires Accepted(t) && 1 <= date.month <= 12 && 1 <= date.day <= 31
    ensures PeriodFor(p, Some(t.(date := date))) == PeriodFor(p, Some(t))
  {
    hide LocalMinuteOfDay;
    DateCancels(t, p.utcOffsetMinutes);
    DateCancels(t.(date := date), p.utcOffsetMinutes);
  }
}
