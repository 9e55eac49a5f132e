/** The elapsed-time calculator and the hourly refresh effect around it.

    The calculator's four arithmetic lines are written out three times in the application,
    character for character: in the script that the generated page embeds, in the live
    preview, and in the demonstration page.  The difference they start from is written
    `now - startDate` in the script and `now.getTime() - startDate.getTime()` in the two
    pages; subtracting two dates converts both to the same millisecond counts, so all three
    compute the same `diff`.  All three are modelled by `Elapsed`; all three refresh loops
    are modelled by `CounterEffect`. */
module Counter {
  import opened JsString

  const HourMs: int := 1000 * 60 * 60
  const DayMs: int := 1000 * 60 * 60 * 24
  /** The calculator's month is a fixed 30 days and its year a fixed 365 days. */
  const MonthMs: int := 1000 * 60 * 60 * 24 * 30
  const YearMs: int := 1000 * 60 * 60 * 24 * 365
  /** The refresh period handed to `setInterval`: one hour, `HourMs`. */
  const RefreshMs: int := 3600000

  datatype TimeSpan = TimeSpan(years: int, months: int, days: int, hours: int)

  const Zero := TimeSpan(0, 0, 0, 0)

  /** The JavaScript `%` operator on integers: the remainder of division truncated toward
      zero, which takes the sign of the dividend (Dafny's own `%` is never negative). */
  function JsRem(x: int, d: int): (r: int)
    requires d > 0
    ensures -d < r < d
    ensures x >= 0 ==> r >= 0
    ensures x <= 0 ==> r <= 0
  {
    if x >= 0 then x % d else -((-x) % d)
  }

  /** Truncation makes the remainder odd in the dividend, and on non-negative dividends it
      agrees with the Euclidean remainder. */
  lemma JsRemMatchesTruncation(x: int, d: int)
    requires d > 0
    ensures JsRem(-x, d) == -JsRem(x, d)
    ensures x >= 0 ==> JsRem(x, d) == x % d
  {
  }

  /** `Math.floor(x / d)` for a positive divisor `d`: for positive `d` Dafny's `/` already
      rounds toward negative infinity.  JavaScript divides in floating point, and its floor of
      the rounded quotient equals this exact floor while `|x| + d` stays below 2^53. */
  function Floor(x: int, d: int): (q: int)
    requires d > 0
    ensures q * d <= x < q * d + d
  {
    x / d
  }

  /** The counter for `diff = now - anchor` milliseconds.  Note that `days` is taken from the
      whole difference modulo 30 days, not from what is left after whole years. */
  function Elapsed(diff: int): TimeSpan {
    TimeSpan(
      Floor(diff, YearMs),
      Floor(JsRem(diff, YearMs), MonthMs),
      Floor(JsRem(diff, MonthMs), DayMs),
      Floor(JsRem(diff, DayMs), HourMs))
  }

  /** At the anchor itself every field is zero. */
  lemma ZeroAtAnchor()
    ensures Elapsed(0) == Zero
  {
  }

  /** For an anchor in the past every field is non-negative and the three smaller fields stay
      below their period (months can reach 12, since 365 days hold twelve 30-day months and
      five days more).  For an anchor in the future every field is non-positive. */
  lemma ElapsedBounds(diff: int)
    ensures var t := Elapsed(diff);
      diff >= 0 ==> 0 <= t.years && 0 <= t.months <= 12 && 0 <= t.days < 30 && 0 <= t.hours < 24
    ensures var t := Elapsed(diff);
      diff < 0 ==> t.years < 0 && -13 <= t.months <= 0 && -30 <= t.days <= 0 && -24 <= t.hours <= 0
  {
    var t := Elapsed(diff);
    assert t.hours * HourMs <= JsRem(diff, DayMs) < t.hours * HourMs + HourMs;
    assert t.days * DayMs <= JsRem(diff, MonthMs) < t.days * DayMs + DayMs;
    assert t.months * MonthMs <= JsRem(diff, YearMs) < t.months * MonthMs + MonthMs;
  }

  /** Which fields are below the anchor's: `years` never decreases as time passes. */
  lemma YearsMonotone(d1: int, d2: int)
    requires d1 <= d2
    ensures Elapsed(d1).years <= Elapsed(d2).years
  {
  }

  /** After the anchor, the pair (years, months) never decreases lexicographically. */
  lemma YearsMonthsMonotone(d1: int, d2: int)
    requires 0 <= d1 <= d2
    ensures var t1, t2 := Elapsed(d1), Elapsed(d2);
      t1.years < t2.years || (t1.years == t2.years && t1.months <= t2.months)
  {
    YearsMonotone(d1, d2);
    var t1, t2 := Elapsed(d1), Elapsed(d2);
    if t1.years == t2.years {
      assert JsRem(d1, YearMs) == d1 - t1.years * YearMs;
      assert JsRem(d2, YearMs) == d2 - t2.years * YearMs;
    }
  }

  predicate LexLess(a: TimeSpan, b: TimeSpan) {
    || a.years < b.years
    || (a.years == b.years && a.months < b.months)
    || (a.years == b.years && a.months == b.months && a.days < b.days)
    || (a.years == b.years && a.months == b.months && a.days == b.days && a.hours < b.hours)
  }

  /** The whole four-field counter is NOT monotone: one day later than 389 days the counter
      goes back from 1 year, 0 months, 29 days to 1 year, 0 months, 0 days, because the day
      field wraps every 30 days while the month field only moves on every 30 days after
      each whole year. */
  lemma CounterNotMonotone()
    ensures Elapsed(389 * DayMs) == TimeSpan(1, 0, 29, 0)
    ensures Elapsed(390 * DayMs) == TimeSpan(1, 0, 0, 0)
    ensures LexLess(Elapsed(390 * DayMs), Elapsed(389 * DayMs))
  {
    assert 389 * DayMs == 33609600000 && 390 * DayMs == 33696000000;
    assert JsRem(33609600000, YearMs) == 2073600000;
    assert JsRem(33609600000, MonthMs) == 2505600000;
    assert JsRem(33609600000, DayMs) == 0;
    assert JsRem(33696000000, YearMs) == 2160000000;
    assert JsRem(33696000000, MonthMs) == 0;
    assert JsRem(33696000000, DayMs) == 0;
  }

  /** From 2024-01-01T00:00:00Z to 2025-02-02T01:00:00Z (398 days and one hour) the counter
      reads 1 year, 1 month, 8 days, 1 hour: 398 days modulo 30 days is 8 days, whereas a true
      cascade (the remainder after years, 33 days, modulo 30 days) would give 3. */
  lemma FebruaryScenario()
    ensures Elapsed(1738458000000 - 1704067200000) == TimeSpan(1, 1, 8, 1)
    ensures (1738458000000 - 1704067200000) % YearMs % MonthMs / DayMs == 3
  {
  }

  /** One period later the field of that period reads the same (`years` one more). */
  lemma ShiftOnePeriod(x: int)
    requires x >= 0
    ensures Elapsed(x + DayMs).hours == Elapsed(x).hours
    ensures Elapsed(x + MonthMs).days == Elapsed(x).days
    ensures Elapsed(x + YearMs).months == Elapsed(x).months
    ensures Elapsed(x + YearMs).years == Elapsed(x).years + 1
  {
    ShiftByMultiple(x, DayMs, 1);
    ShiftByMultiple(x, MonthMs, 1);
    ShiftByMultiple(x, YearMs, 1);
  }

  lemma MulAtLeast(d: int, k: int)
    requires d > 0 && k >= 1
    ensures d * k >= d
  {
  }

  /** Euclidean division has one quotient and one remainder. */
  lemma DivModUnique(y: int, d: int, q: int, r: int)
    requires d > 0 && 0 <= r < d && y == q * d + r
    ensures y / d == q && y % d == r
  {
    var q', r' := y / d, y % d;
    assert y == q' * d + r';
    if q' > q {
      assert (q' - q) * d == q' * d - q * d;
      MulAtLeast(d, q' - q);
    } else if q' < q {
      assert (q - q') * d == q * d - q' * d;
      MulAtLeast(d, q - q');
    }
  }

  /** The hour field repeats every day, the day field every 30 days, the month field every
      365 days, and whole years add up. */
  lemma Periodic(diff: int, k: nat)
    requires diff >= 0
    ensures Elapsed(diff + k * DayMs).hours == Elapsed(diff).hours
    ensures Elapsed(diff + k * MonthMs).days == Elapsed(diff).days
    ensures Elapsed(diff + k * YearMs).months == Elapsed(diff).months
    ensures Elapsed(diff + k * YearMs).years == Elapsed(diff).years + k
  {
    ShiftByMultiple(diff, DayMs, k);
    ShiftByMultiple(diff, MonthMs, k);
    ShiftByMultiple(diff, YearMs, k);
  }

  /** Adding `k` times the divisor to a non-negative dividend keeps the remainder and adds `k`
      to the quotient. */
  lemma ShiftByMultiple(x: int, d: int, k: nat)
    requires x >= 0 && d > 0
    ensures JsRem(x + k * d, d) == JsRem(x, d) && Floor(x + k * d, d) == Floor(x, d) + k
  {
    assert x == (x / d) * d + x % d;
    assert (x / d + k) * d == (x / d) * d + k * d;
    assert k * d >= 0;
    DivModUnique(x + k * d, d, x / d + k, x % d);
  }

  /** What one run of `updateCounter` hands to `setCounter`: an unparseable date makes
      `getTime()` return NaN, and NaN then fills all four fields. */
  datatype Reading = Counted(span: TimeSpan) | NotANumber

  function Measure(anchor: Option<int>, now: int): (r: Reading)
    ensures r.NotANumber? <==> anchor.None?
    ensures anchor == Some(now) ==> r == Counted(Zero)
  {
    match anchor
    case None => NotANumber
    case Some(a) => Counted(Elapsed(now - a))
  }

  /** The `useEffect` in the preview and in the demonstration page: one immediate update,
      then one update per hour from an interval timer, and `clearInterval` as the cleanup that
      runs on unmount or before the effect runs again for a changed date.

      The host clock and date parsing are not modelled: every method receives the current
      instant and the parsed relationship date (None when it does not parse).  Timer handles
      model the ids `setInterval` returns; `live` is the set of intervals the host still holds. */
  class CounterEffect {
    /** The React state `counter`. */
    var counter: Reading
    /** An interval of this component is scheduled. */
    var timerActive: bool
    /** The handle of the interval the current effect run created. */
    var handle: nat
    /** The date value the effect last ran for (its dependency list). */
    var date: string
    /** The parsed date the current interval's closure captured. */
    var anchor: Option<int>
    /** Handles handed out so far; the next `setInterval` returns this one. */
    var issued: nat
    /** The delay, in milliseconds, the current effect run handed to `setInterval`. */
    var period: int
    ghost var live: set<nat>
    /** Every value published to `setCounter`, oldest first. */
    ghost var published: seq<Reading>

    ghost predicate Valid()
      reads this
    {
      && (timerActive ==> live == {handle} && handle < issued && date != [] && period == RefreshMs)
      && (!timerActive ==> live == {})
      && (published == [] ==> counter == Counted(Zero))
      && (published != [] ==> counter == published[|published| - 1])
    }

    /** At most one interval of this component is ever scheduled. */
    lemma AtMostOneTimer()
      requires Valid()
      ensures |live| <= 1
    {
    }

    /** Mounting: the state starts at four zeros and the effect runs once.  An empty date
        publishes nothing and schedules nothing, so the counter stays at zero. */
    constructor Mount(date: string, anchor: Option<int>, now: int)
      ensures Valid()
      ensures this.date == date && timerActive == (date != [])
      ensures date == [] ==> published == [] && counter == Counted(Zero) && live == {}
      ensures date != [] ==> published == [Measure(anchor, now)] && this.anchor == anchor && period == RefreshMs
    {
      counter := Counted(Zero);
      timerActive := false;
      handle := 0;
      this.date := date;
      this.anchor := None;
      issued := 0;
      period := 0;
      live := {};
      published := [];
      new;
      RunEffect(date, anchor, now);
    }

    /** The effect body: return at once for an empty date; otherwise publish one update
        and schedule the hourly interval. */
    method RunEffect(d: string, a: Option<int>, now: int)
      requires Valid() && !timerActive
      modifies this
      ensures Valid() && date == d && issued >= old(issued)
      ensures d == [] ==> !timerActive && counter == old(counter) && published == old(published)
      ensures d != [] ==> timerActive && anchor == a && handle == old(issued) && period == RefreshMs
      ensures d != [] ==> published == old(published) + [Measure(a, now)]
    {
      date := d;
      if d != [] {
        anchor := a;
        counter := Measure(a, now);
        published := published + [counter];
        handle := issued;
        issued := issued + 1;
        period := RefreshMs;
        live := {handle};
        timerActive := true;
      }
    }

    /** The interval with handle `h` fires; the host fires the live one every `period`
        milliseconds, which the model leaves to the caller.  Only the live interval publishes:
        a tick that was already pending when its interval was cleared does nothing. */
    method Tick(h: nat, now: int)
      requires Valid()
      modifies this`counter, this`published
      ensures Valid()
      ensures h in live ==> counter == Measure(anchor, now) && published == old(published) + [counter]
      ensures h !in live ==> counter == old(counter) && published == old(published)
    {
      if timerActive && h == handle {
        counter := Measure(anchor, now);
        published := published + [counter];
      }
    }

    /** The effect's cleanup, `clearInterval(interval)`.  Calling it again changes nothing. */
    method Cleanup()
      requires Valid()
      modifies this`timerActive, this`live
      ensures Valid() && !timerActive && live == {}
    {
      timerActive := false;
      live := {};
    }

    /** A re-render with date `d`.  React compares the dependency with the previous one: an
        unchanged date leaves everything as it is; a changed one runs the old cleanup first
        and the effect again afterwards.  Note that a change to the empty date clears the
        interval but leaves the last counter value on screen. */
    method Render(d: string, a: Option<int>, now: int)
      requires Valid()
      modifies this
      ensures Valid() && date == d
      ensures d == old(date) ==> unchanged(this)
      ensures d != old(date) && d == [] ==>
        !timerActive && live == {} && counter == old(counter) && published == old(published)
      ensures d != old(date) && d != [] ==>
        timerActive && live == {old(issued)} && anchor == a && published == old(published) + [Measure(a, now)]
    {
      if d != date {
        if timerActive {
          Cleanup();
        }
        RunEffect(d, a, now);
      }
    }

    /** Unmounting runs the cleanup of the last effect run. */
    method Unmount()
      requires Valid()
      modifies this`timerActive, this`live
      ensures Valid() && !timerActive && live == {}
    {
      if timerActive {
        Cleanup();
      }
    }
  }

  /** A client of the effect: the first publish happens before any tick, a stale tick after
      unmount publishes nothing, and a changed date leaves exactly one interval. */
  method LifecycleScenario(a1: int, a2: int, t0: int, t1: int, t2: int)
  {
    var e := new CounterEffect.Mount("2024-01-01", Some(a1), t0);
    assert e.published == [Counted(Elapsed(t0 - a1))];
    var first := e.handle;
    e.Tick(first, t1);
    assert e.published == [Counted(Elapsed(t0 - a1)), Counted(Elapsed(t1 - a1))];
    e.Render("2023-05-05", Some(a2), t1);
    assert first !in e.live && |e.live| == 1;
    e.Tick(first, t2);
    assert e.counter == Counted(Elapsed(t1 - a2));
    e.Unmount();
    e.Tick(e.handle, t2);
    assert e.counter == Counted(Elapsed(t1 - a2));
  }
}
