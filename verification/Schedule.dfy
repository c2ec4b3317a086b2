/** Wall-clock schedules (internal/tasks/schedule.go). Instants are nanoseconds, candidates
    whole seconds; a time zone gives the clock reading of every whole second. */
module Schedule {

  const NANOS := 1_000_000_000
  const SEARCH_LIMIT := 72 * 3600

  datatype Clock = Clock(hour: int, minute: int, second: int)

  datatype Schedule =
    | Daily(hour: int, minute: int, second: int)
    | Hourly(minute: int, second: int)
    | EveryMinutes(interval: int, second: int)
    | EverySeconds(interval: int)
  {
    /** What the constructors accept. */
    predicate Valid() {
      match this
      case Daily(hour, minute, second) => 0 <= hour <= 23 && 0 <= minute <= 59 && 0 <= second <= 59
      case Hourly(minute, second) => 0 <= minute <= 59 && 0 <= second <= 59
      case EveryMinutes(interval, second) => 1 <= interval <= 60 && 60 % interval == 0 && 0 <= second <= 59
      case EverySeconds(interval) => 1 <= interval <= 60 && 60 % interval == 0
    }

    predicate Matches(local: Clock)
      requires Valid()
    {
      match this
      case Daily(hour, minute, second) => local.hour == hour && local.minute == minute && local.second == second
      case Hourly(minute, second) => local.minute == minute && local.second == second
      case EveryMinutes(interval, second) => local.minute % interval == 0 && local.second == second
      case EverySeconds(interval) => local.second % interval == 0
    }

    /** The seconds between two occurrences in a zone of fixed offset. */
    function Period(): (p: int)
      requires Valid()
      ensures 1 <= p <= 86400
    {
      match this
      case Daily(_, _, _) => 86400
      case Hourly(_, _) => 3600
      case EveryMinutes(interval, _) => 60 * interval
      case EverySeconds(interval) => interval
    }

    /** The occurrences are the seconds of this remainder. */
    function Phase(): (p: int)
      requires Valid()
      ensures 0 <= p < Period()
    {
      match this
      case Daily(hour, minute, second) => 3600 * hour + 60 * minute + second
      case Hourly(minute, second) => 60 * minute + second
      case EveryMinutes(_, second) => second
      case EverySeconds(_) => 0
    }
  }

  /** `c` is the first whole second after `from` that matches or lies beyond the limit. */
  ghost predicate NextAfter(from: int, matches: int -> bool, c: int) {
    && from < c * NANOS
    && (forall s | from < s * NANOS && s < c :: !matches(s))
    && (!matches(c) ==> from + SEARCH_LIMIT * NANOS < c * NANOS)
    && (c - 1) * NANOS <= from + SEARCH_LIMIT * NANOS
  }

  /** In any zone the loop ends with the least matching whole second after `from`, unless
      none lies within the limit. */
  method NextMatching(from: int, matches: int -> bool) returns (c: int)
    ensures NextAfter(from, matches, c)
  {
    c := from / NANOS + 1;
    var limit := from + SEARCH_LIMIT * NANOS;
    while c * NANOS <= limit
      invariant from < c * NANOS && (c - 1) * NANOS <= limit
      invariant forall s | from < s * NANOS && s < c :: !matches(s)
      decreases limit - c * NANOS
    {
      if matches(c) {
        return;
      }
      c := c + 1;
    }
  }

  method Next(schedule: Schedule, local: int -> Clock, from: int) returns (c: int)
    requires schedule.Valid()
    ensures NextAfter(from, s => schedule.Matches(local(s)), c)
  {
    c := NextMatching(from, s => schedule.Matches(local(s)));
  }

  // ----- Zones of fixed offset -----

  function LocalClock(offset: int, s: int): Clock {
    var t := s + offset;
    Clock((t / 3600) % 24, (t / 60) % 60, t % 60)
  }

  lemma TimesPositive(p: int, n: int)
    requires p > 0
    ensures n >= 1 ==> p * n >= p
    ensures n <= -1 ==> p * n <= -p
  {
  }

  /** Quotient and remainder are unique. */
  lemma RemainderIs(x: int, p: int, q: int, r: int)
    requires 0 <= r < p && x == p * q + r
    ensures x % p == r && x / p == q
  {
    var d := q - x / p;
    assert p * d == p * q - p * (x / p);
    TimesPositive(p, d);
  }

  lemma AddMultiple(r: int, k: int, n: int)
    requires k > 0
    ensures (r + k * n) % k == r % k
  {
    assert k * (r / k + n) == k * (r / k) + k * n;
    RemainderIs(r + k * n, k, r / k + n, r % k);
  }

  lemma Regroup(a: int, b: int, c: int)
    ensures (a * b) * c == a * (b * c)
  {
  }

  lemma DivMod(t: int, n: int)
    requires n > 0
    ensures t == t % n + n * (t / n)
  {
  }

  /** A remainder by a multiple keeps the remainder by its divisor. */
  lemma RemainderByMultiple(t: int, k: int, j: int)
    requires k > 0 && k * j > 0
    ensures (t % (k * j)) % k == t % k
  {
    DivMod(t, k * j);
    Regroup(k, j, t / (k * j));
    AddMultiple(t % (k * j), k, j * (t / (k * j)));
  }

  lemma RemainderOfRemainder(t: int, k: int, n: int)
    requires k > 0 && n > 0 && n % k == 0
    ensures (t % n) % k == t % k
  {
    DivMod(n, k);
    RemainderByMultiple(t, k, n / k);
  }

  lemma ScaledBelow(base: int, b: int, r: int, k: int)
    requires 0 <= r < base && 0 <= b < k
    ensures 0 <= base * b + r < base * k
  {
    TimesPositive(base, k - b);
    assert base * (k - b) == base * k - base * b;
    assert base * b >= 0;
  }

  /** A remainder by a product, taken factor by factor. */
  lemma RemainderByProduct(t: int, base: int, k: int)
    requires base > 0 && k > 0
    ensures t % (base * k) == base * ((t / base) % k) + t % base
  {
    var q := t / base;
    var a, b := q / k, q % k;
    ScaledBelow(base, b, t % base, k);
    Regroup(base, k, a);
    assert base * (k * a + b) == base * (k * a) + base * b;
    RemainderIs(t, base * k, a, base * b + t % base);
  }

  lemma DayRemainder(t: int)
    ensures t % 86400 == 3600 * ((t / 3600) % 24) + 60 * ((t / 60) % 60) + t % 60
    ensures t % 3600 == 60 * ((t / 60) % 60) + t % 60
  {
    RemainderByProduct(t, 60, 60);
    RemainderByProduct(t, 3600, 24);
  }

  lemma MinutesArePeriodic(t: int, interval: int, second: int)
    requires 1 <= interval <= 60 && 60 % interval == 0 && 0 <= second <= 59
    ensures ((t / 60) % 60) % interval == 0 && t % 60 == second <==> t % (60 * interval) == second
  {
    RemainderOfRemainder(t / 60, interval, 60);
    RemainderByProduct(t, 60, interval);
  }

  lemma DaysArePeriodic(t: int, hour: int, minute: int, second: int)
    requires 0 <= hour <= 23 && 0 <= minute <= 59 && 0 <= second <= 59
    ensures (t / 3600) % 24 == hour && (t / 60) % 60 == minute && t % 60 == second <==>
      t % 86400 == 3600 * hour + 60 * minute + second
    ensures (t / 60) % 60 == minute && t % 60 == second <==> t % 3600 == 60 * minute + second
  {
    DayRemainder(t);
  }

  /** In a zone of fixed offset the occurrences are one remainder class: the intervals are
      divisors of 60, so minutes and seconds wrap where they should. */
  lemma OccurrencesArePeriodic(schedule: Schedule, offset: int, s: int)
    requires schedule.Valid()
    ensures schedule.Matches(LocalClock(offset, s)) <==> (s + offset) % schedule.Period() == schedule.Phase()
  {
    match schedule
    case Daily(hour, minute, second) => DaysArePeriodic(s + offset, hour, minute, second);
    case Hourly(minute, second) => DaysArePeriodic(s + offset, 0, minute, second);
    case EveryMinutes(interval, second) => MinutesArePeriodic(s + offset, interval, second);
    case EverySeconds(interval) => RemainderOfRemainder(s + offset, interval, 60);
  }

  /** Two members of one remainder class are at least one period apart. */
  lemma ClassApart(x: int, y: int, p: int)
    requires p > 0 && x < y && x % p == y % p
    ensures y - x >= p
  {
    var d := y / p - x / p;
    assert p * d == p * (y / p) - p * (x / p);
    TimesPositive(p, d);
  }

  /** Every stretch of one period meets a remainder class. */
  lemma ClassInPeriod(p: int, phase: int, offset: int, from: int) returns (c: int)
    requires 0 <= phase < p
    ensures from < c <= from + p && (c + offset) % p == phase
  {
    var gap := phase - (from + 1 + offset);
    c := from + 1 + gap % p;
    assert c + offset == phase + p * -(gap / p);
    AddMultiple(phase, p, -(gap / p));
    RemainderIs(phase, p, 0, phase);
  }

  function Floor(from: int): int {
    from / NANOS
  }

  /** When a zone of fixed offset shows the schedule's time. */
  function Occurs(schedule: Schedule, offset: int): int -> bool
    requires schedule.Valid()
  {
    s => schedule.Matches(LocalClock(offset, s))
  }

  /** In a zone of fixed offset the next occurrence matches and lies within one period, so
      the search limit is never reached. */
  lemma NextWithinPeriod(schedule: Schedule, offset: int, from: int, c: int)
    requires schedule.Valid() && NextAfter(from, Occurs(schedule, offset), c)
    ensures Occurs(schedule, offset)(c) && Floor(from) < c <= Floor(from) + schedule.Period()
  {
    var first := ClassInPeriod(schedule.Period(), schedule.Phase(), offset, Floor(from));
    OccurrencesArePeriodic(schedule, offset, first);
    FirstBounds(from, Occurs(schedule, offset), c, first);
  }

  lemma FirstBounds(from: int, matches: int -> bool, c: int, first: int)
    requires NextAfter(from, matches, c) && matches(first) && Floor(from) < first <= Floor(from) + 86400
    ensures matches(c) && Floor(from) < c <= first
  {
    assert from < first * NANOS;
  }

  /** Asking again from an occurrence advances by exactly one period. */
  lemma NextAdvancesOnePeriod(schedule: Schedule, offset: int, c: int, d: int)
    requires schedule.Valid() && Occurs(schedule, offset)(c)
    requires NextAfter(c * NANOS, Occurs(schedule, offset), d)
    ensures d == c + schedule.Period()
  {
    NextWithinPeriod(schedule, offset, c * NANOS, d);
    OccurrencesArePeriodic(schedule, offset, c);
    OccurrencesArePeriodic(schedule, offset, d);
    assert Floor(c * NANOS) == c;
    ClassApart(c + offset, d + offset, schedule.Period());
  }
}
