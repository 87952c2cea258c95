/** One tick of the countdown to the tournament: the millisecond difference
    between the target time and now, split into days, hours, minutes and
    seconds, each drawn with at least two digits. */
module Countdown {
  import Text

  // 1000, 1000 * 60, 1000 * 60 * 60 and 1000 * 60 * 60 * 24
  const MsPerSecond := 1000
  const MsPerMinute := 60000
  const MsPerHour := 3600000
  const MsPerDay := 86400000

  /** One displayed unit; `caption` holds the unit's label text (`label` is
      a reserved word in Dafny). */
  datatype TimeUnit = TimeUnit(value: int, caption: string)

  /** Whole days, hours, minutes and seconds of a positive difference. */
  datatype Parts = Parts(days: nat, hours: nat, minutes: nat, seconds: nat)

  /** The milliseconds the parts stand for. */
  function Millis(p: Parts): int {
    p.days * MsPerDay + p.hours * MsPerHour + p.minutes * MsPerMinute + p.seconds * MsPerSecond
  }

  /** `(a, b, c, d) <= (a', b', c', d')` in lexicographic order. */
  predicate LexLe(p: Parts, q: Parts) {
    || p.days < q.days
    || (p.days == q.days && p.hours < q.hours)
    || (p.days == q.days && p.hours == q.hours && p.minutes < q.minutes)
    || (p.days == q.days && p.hours == q.hours && p.minutes == q.minutes && p.seconds <= q.seconds)
  }

  /** Quotient and remainder are the only such pair. */
  lemma DivModUnique(x: int, m: int, q: int, r: int)
    requires m > 0 && x == q * m + r && 0 <= r < m
    ensures x / m == q && x % m == r
  {
    var q', r' := x / m, x % m;
    assert (q' - q) * m == r - r' by {
      assert q' * m + r' == q * m + r;
      assert (q' - q) * m == q' * m - q * m;
    }
    if q' > q {
      MulAtLeast(q' - q, m);
    } else if q' < q {
      MulAtLeast(q - q', m);
    }
  }

  lemma MulAtLeast(a: int, m: int)
    requires a >= 1 && m > 0
    ensures a * m >= m
  {
    assert a * m == (a - 1) * m + m;
  }

  /** The remainder by a larger unit, taken again by a smaller unit that divides it,
      is the remainder by the smaller unit. */
  lemma ModNested(x: int, big: int, small: int, k: int)
    requires small > 0 && big == k * small && k > 0
    ensures (x % big) % small == x % small
    ensures (x % big) / small < k
  {
    var q1, r1 := x / big, x % big;
    var q2, r2 := r1 / small, r1 % small;
    assert x == q1 * big + r1;
    assert r1 == q2 * small + r2;
    assert x == (q1 * k + q2) * small + r2 by {
      assert q1 * big == q1 * k * small;
      assert (q1 * k + q2) * small == q1 * k * small + q2 * small;
    }
    DivModUnique(x, small, q1 * k + q2, r2);
  }

  /** The decomposition computed with floor division and remainder; the
      difference is positive, so floor and truncation agree. Hours, minutes
      and seconds are within their clock ranges and the parts account for the
      whole difference up to the dropped milliseconds. */
  function Decompose(difference: int): (p: Parts)
    requires difference > 0
    ensures p.hours <= 23 && p.minutes <= 59 && p.seconds <= 59
    ensures Millis(p) <= difference < Millis(p) + MsPerSecond
  {
    var p := Parts(
      difference / MsPerDay,
      (difference % MsPerDay) / MsPerHour,
      (difference % MsPerHour) / MsPerMinute,
      (difference % MsPerMinute) / MsPerSecond);
    ModNested(difference, MsPerDay, MsPerHour, 24);
    ModNested(difference, MsPerHour, MsPerMinute, 60);
    ModNested(difference, MsPerMinute, MsPerSecond, 60);
    assert difference == p.days * MsPerDay + difference % MsPerDay;
    assert difference % MsPerDay == p.hours * MsPerHour + difference % MsPerHour;
    assert difference % MsPerHour == p.minutes * MsPerMinute + difference % MsPerMinute;
    assert difference % MsPerMinute == p.seconds * MsPerSecond + difference % MsPerSecond;
    p
  }

  /** Parts within their clock ranges that compare lower are worth at least a
      second less. */
  lemma LexLessMillis(p: Parts, q: Parts)
    requires p.hours <= 23 && p.minutes <= 59 && p.seconds <= 59
    requires q.hours <= 23 && q.minutes <= 59 && q.seconds <= 59
    requires !LexLe(q, p)
    ensures Millis(p) + MsPerSecond <= Millis(q)
  {
    var below := p.minutes * MsPerMinute + p.seconds * MsPerSecond;
    assert below <= 59 * MsPerMinute + 59 * MsPerSecond;
    if p.days < q.days {
      assert p.hours * MsPerHour <= 23 * MsPerHour;
      assert Millis(p) + MsPerSecond <= p.days * MsPerDay + MsPerDay;
      assert p.days * MsPerDay + MsPerDay <= q.days * MsPerDay;
    } else if p.hours < q.hours {
      assert Millis(p) + MsPerSecond <= p.days * MsPerDay + p.hours * MsPerHour + MsPerHour;
      assert p.hours * MsPerHour + MsPerHour <= q.hours * MsPerHour;
    } else if p.minutes < q.minutes {
      assert p.minutes * MsPerMinute + MsPerMinute <= q.minutes * MsPerMinute;
    } else {
      assert p.seconds * MsPerSecond + MsPerSecond <= q.seconds * MsPerSecond;
    }
  }

  /** A later-or-equal difference never yields a lexicographically smaller
      (days, hours, minutes, seconds). */
  lemma DecomposeMonotone(d1: int, d2: int)
    requires 0 < d1 <= d2
    ensures LexLe(Decompose(d1), Decompose(d2))
  {
    var p, q := Decompose(d1), Decompose(d2);
    if !LexLe(p, q) {
      LexLessMillis(q, p);
    }
  }

  /** The whole seconds the parts stand for. */
  function TotalSeconds(p: Parts): int {
    p.days * 86400 + p.hours * 3600 + p.minutes * 60 + p.seconds
  }

  /** Parts that account for a difference up to its dropped milliseconds
      count its whole seconds. */
  lemma PartsCountSeconds(d: int, p: Parts)
    requires Millis(p) <= d < Millis(p) + MsPerSecond
    ensures d / MsPerSecond == TotalSeconds(p)
  {
    assert Millis(p) == TotalSeconds(p) * MsPerSecond;
    DivModUnique(d, MsPerSecond, TotalSeconds(p), d - Millis(p));
  }

  /** Distinct parts within their clock ranges count different seconds. */
  lemma TotalSecondsInjective(p: Parts, q: Parts)
    requires p.hours <= 23 && p.minutes <= 59 && p.seconds <= 59
    requires q.hours <= 23 && q.minutes <= 59 && q.seconds <= 59
    requires p != q
    ensures TotalSeconds(p) != TotalSeconds(q)
  {
    assert Millis(p) == TotalSeconds(p) * MsPerSecond;
    assert Millis(q) == TotalSeconds(q) * MsPerSecond;
    if LexLe(p, q) {
      LexLessMillis(p, q);
    } else {
      LexLessMillis(q, p);
    }
  }

  /** Two differences give the same parts exactly when they fall in the same
      whole second. */
  lemma DecomposeSameSecond(d1: int, d2: int)
    requires d1 > 0 && d2 > 0
    ensures Decompose(d1) == Decompose(d2) <==> d1 / MsPerSecond == d2 / MsPerSecond
  {
    var p, q := Decompose(d1), Decompose(d2);
    PartsCountSeconds(d1, p);
    PartsCountSeconds(d2, q);
    if p != q {
      TotalSecondsInjective(p, q);
    }
  }

  /** The units shown after one tick at time `now` with target `target`: the
      four parts in display order while the target is ahead, otherwise the
      units shown before. */
  function Tick(previous: seq<TimeUnit>, target: int, now: int): (units: seq<TimeUnit>)
    ensures target - now <= 0 ==> units == previous
    ensures target - now > 0 ==>
              && |units| == 4
              && units[0].caption == "Días" && units[1].caption == "Horas"
              && units[2].caption == "Min" && units[3].caption == "Seg"
              && 0 <= units[1].value <= 23 && 0 <= units[2].value <= 59 && 0 <= units[3].value <= 59
              && 0 <= units[0].value
              && units[0].value * MsPerDay + units[1].value * MsPerHour + units[2].value * MsPerMinute
                 + units[3].value * MsPerSecond <= target - now
              && target - now < units[0].value * MsPerDay + units[1].value * MsPerHour
                 + units[2].value * MsPerMinute + units[3].value * MsPerSecond + MsPerSecond
  {
    var difference := target - now;
    if difference > 0 then
      var p := Decompose(difference);
      [TimeUnit(p.days, "Días"), TimeUnit(p.hours, "Horas"), TimeUnit(p.minutes, "Min"), TimeUnit(p.seconds, "Seg")]
    else previous
  }

  /** The digits drawn for one unit (`value.toString().padStart(2, "0")`):
      at least two characters, a leading zero only below ten, and reading the
      digits back gives the value. */
  function Render(u: TimeUnit): (text: string)
    requires u.value >= 0
    ensures |text| >= 2 && Text.AllDigits(text)
    ensures u.value < 10 ==> text == ['0', Text.DigitChar(u.value)]
    ensures u.value >= 10 ==> text == Text.DecimalString(u.value)
    ensures text[0] == '0' <==> u.value < 10
    ensures Text.ParseDecimal(text) == u.value
  {
    Text.TwoDigits(u.value)
  }
}
