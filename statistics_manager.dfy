/**
 * The ESP32's `StatisticsManager`: lifetime brew counters and bounds, the
 * maintenance counters, the session count, and three fixed-capacity rings
 * (brew records, power samples, daily summaries) that keep the newest
 * entries. The ring capacities and the accepted brew-duration window come
 * from a header that is not part of this model, so they are parameters.
 *
 * Floating-point quantities (weights, pressure, flow, temperature, watts,
 * kWh) are left out; the average brew time is a `real`.
 */
module StatisticsManager {
  import opened Wrappers

  // ---------------------------------------------------------------------------
  // Records
  // ---------------------------------------------------------------------------

  /** `BrewRecord` without its floating-point fields. */
  datatype BrewRecord = BrewRecord(timestamp: nat, durationMs: nat, rating: nat)

  /** `PowerSample` without its floating-point fields. */
  datatype PowerSample = PowerSample(timestamp: nat)

  /** `DailySummary` without its floating-point fields. */
  datatype DailySummary = DailySummary(date: nat, shotCount: nat, totalBrewTimeMs: nat, onTimeMinutes: nat, steamCycles: nat)

  /** `LifetimeStats`; `avgBrewTimeMs` is exact here where the source divides in `float`. */
  datatype Lifetime = Lifetime(
    totalShots: nat, totalSteamCycles: nat, totalOnTimeMinutes: nat, totalBrewTimeMs: nat,
    avgBrewTimeMs: real, minBrewTimeMs: nat, maxBrewTimeMs: nat, firstShotTimestamp: nat)

  const NO_LIFETIME := Lifetime(0, 0, 0, 0, 0.0, 0, 0, 0)

  /** `MaintenanceStats`. */
  datatype Maintenance = Maintenance(
    shotsSinceBackflush: nat, shotsSinceGroupClean: nat, shotsSinceDescale: nat,
    lastBackflushTimestamp: nat, lastGroupCleanTimestamp: nat, lastDescaleTimestamp: nat)

  const NO_MAINTENANCE := Maintenance(0, 0, 0, 0, 0, 0)

  /**
   * `MaintenanceStats::recordMaintenance`: a backflush restarts the backflush
   * and the group-clean counters (a backflush cleans the group too), a
   * descale restarts the descale counter, any other kind changes nothing.
   */
  function RecordMaintenance(m: Maintenance, kind: string, timestamp: nat): (r: Maintenance)
    ensures kind == "backflush" ==> r == m.(shotsSinceBackflush := 0, lastBackflushTimestamp := timestamp,
      shotsSinceGroupClean := 0, lastGroupCleanTimestamp := timestamp)
    ensures kind == "descale" ==> r == m.(shotsSinceDescale := 0, lastDescaleTimestamp := timestamp)
    ensures kind != "backflush" && kind != "descale" ==> r == m
  {
    if kind == "backflush" then
      m.(shotsSinceBackflush := 0, lastBackflushTimestamp := timestamp,
         shotsSinceGroupClean := 0, lastGroupCleanTimestamp := timestamp)
    else if kind == "descale" then
      m.(shotsSinceDescale := 0, lastDescaleTimestamp := timestamp)
    else m
  }

  /** The three shot counters after one more accepted brew. */
  function CountShot(m: Maintenance): Maintenance {
    m.(shotsSinceBackflush := m.shotsSinceBackflush + 1,
       shotsSinceGroupClean := m.shotsSinceGroupClean + 1,
       shotsSinceDescale := m.shotsSinceDescale + 1)
  }

  /** After a maintenance event of a kind and `n` brews, that kind's counter reads `n`. */
  lemma {:induction false} CountsSinceMaintenance(m: Maintenance, kind: string, timestamp: nat, n: nat)
    requires kind == "backflush" || kind == "descale"
    ensures var r := Shots(RecordMaintenance(m, kind, timestamp), n);
      (kind == "backflush" ==> (r.shotsSinceBackflush == n && r.shotsSinceGroupClean == n
                                && r.shotsSinceDescale == m.shotsSinceDescale + n))
      && (kind == "descale" ==> (r.shotsSinceDescale == n
                                 && r.shotsSinceBackflush == m.shotsSinceBackflush + n))
  {
    if n > 0 {
      CountsSinceMaintenance(m, kind, timestamp, n - 1);
    }
  }

  /** `n` brews counted one after another. */
  function Shots(m: Maintenance, n: nat): Maintenance {
    if n == 0 then m else CountShot(Shots(m, n - 1))
  }

  // ---------------------------------------------------------------------------
  // Maintenance thresholds
  // ---------------------------------------------------------------------------

  const BACKFLUSH_ALERT_THRESHOLD: nat := 100
  const DESCALE_ALERT_THRESHOLD: nat := 500
  const SECONDS_PER_DAY: nat := 86400
  const DESCALE_GRACE_DAYS: nat := 60

  /** The reminders `checkMaintenanceThresholds` raises: backflush due, and descale due with the days overdue. */
  datatype Due = Due(backflush: bool, descale: Option<nat>)

  /**
   * `checkMaintenanceThresholds`: a backflush is due from 100 shots, a
   * descale from 500; the descale is overdue by the days past 60 since the
   * last one, counted only when a last descale is recorded. `now` is the
   * wall-clock time the source reads; the subtraction wraps in 32 bits.
   */
  function MaintenanceDue(m: Maintenance, now: nat): (r: Due)
    ensures r.backflush <==> m.shotsSinceBackflush >= BACKFLUSH_ALERT_THRESHOLD
    ensures r.descale.Some? <==> m.shotsSinceDescale >= DESCALE_ALERT_THRESHOLD
    ensures r.descale.Some? && m.lastDescaleTimestamp == 0 ==> r.descale.value == 0
    ensures r.descale.Some? && 0 < m.lastDescaleTimestamp <= now < 0x1_0000_0000 ==>
      r.descale.value == if (now - m.lastDescaleTimestamp) / SECONDS_PER_DAY > DESCALE_GRACE_DAYS
        then (now - m.lastDescaleTimestamp) / SECONDS_PER_DAY - DESCALE_GRACE_DAYS else 0
  {
    var overdue :=
      if m.lastDescaleTimestamp > 0 then
        var days := ((now - m.lastDescaleTimestamp) % 0x1_0000_0000) / SECONDS_PER_DAY;
        if days > DESCALE_GRACE_DAYS then days - DESCALE_GRACE_DAYS else 0
      else 0;
    Due(m.shotsSinceBackflush >= BACKFLUSH_ALERT_THRESHOLD,
        if m.shotsSinceDescale >= DESCALE_ALERT_THRESHOLD then Some(overdue) else None)
  }

  // ---------------------------------------------------------------------------
  // Lifetime counters
  // ---------------------------------------------------------------------------

  /**
   * The lifetime counters after an accepted brew of `d` ms at time `now`:
   * one more shot, `d` more brew time, the first-shot time set once, the
   * bounds set by the first shot and widened by later ones, and the average
   * recomputed.
   */
  function AddBrew(lt: Lifetime, d: nat, now: nat): (r: Lifetime)
    ensures r.totalShots == lt.totalShots + 1 && r.totalBrewTimeMs == lt.totalBrewTimeMs + d
    ensures r.firstShotTimestamp == if lt.firstShotTimestamp == 0 then now else lt.firstShotTimestamp
    ensures lt.totalShots == 0 ==> r.minBrewTimeMs == d == r.maxBrewTimeMs
    ensures lt.totalShots > 0 ==> r.minBrewTimeMs == Min(lt.minBrewTimeMs, d) && r.maxBrewTimeMs == Max(lt.maxBrewTimeMs, d)
    ensures r.avgBrewTimeMs * (r.totalShots as real) == r.totalBrewTimeMs as real
    ensures r.totalSteamCycles == lt.totalSteamCycles && r.totalOnTimeMinutes == lt.totalOnTimeMinutes
  {
    var shots := lt.totalShots + 1;
    var total := lt.totalBrewTimeMs + d;
    var lo := if shots == 1 then d else Min(lt.minBrewTimeMs, d);
    var hi := if shots == 1 then d else Max(lt.maxBrewTimeMs, d);
    lt.(totalShots := shots, totalBrewTimeMs := total,
        firstShotTimestamp := if lt.firstShotTimestamp == 0 then now else lt.firstShotTimestamp,
        minBrewTimeMs := lo, maxBrewTimeMs := hi,
        avgBrewTimeMs := total as real / shots as real)
  }

  function Min(a: nat, b: nat): nat { if b < a then b else a }
  function Max(a: nat, b: nat): nat { if b > a then b else a }

  function Sum(ds: seq<nat>): nat {
    if |ds| == 0 then 0 else Sum(ds[..|ds| - 1]) + ds[|ds| - 1]
  }

  /** The counters after brews of the given durations, from zeroed counters. */
  function AfterBrews(ds: seq<nat>, now: nat): Lifetime {
    if |ds| == 0 then NO_LIFETIME else AddBrew(AfterBrews(ds[..|ds| - 1], now), ds[|ds| - 1], now)
  }

  /**
   * From zeroed counters, the lifetime counters describe the brews recorded:
   * their number, their total time, bounds that every duration lies within
   * and that some duration attains, and the mean.
   */
  lemma {:induction false} LifetimeDescribesBrews(ds: seq<nat>, now: nat)
    ensures var lt := AfterBrews(ds, now);
      lt.totalShots == |ds| && lt.totalBrewTimeMs == Sum(ds)
      && (forall k :: 0 <= k < |ds| ==> lt.minBrewTimeMs <= ds[k] <= lt.maxBrewTimeMs)
      && (|ds| > 0 ==> exists k :: 0 <= k < |ds| && ds[k] == lt.minBrewTimeMs)
      && (|ds| > 0 ==> exists k :: 0 <= k < |ds| && ds[k] == lt.maxBrewTimeMs)
      && (|ds| > 0 ==> lt.avgBrewTimeMs == Sum(ds) as real / |ds| as real)
  {
    if |ds| > 0 {
      var init := ds[..|ds| - 1];
      var d := ds[|ds| - 1];
      LifetimeDescribesBrews(init, now);
      var before := AfterBrews(init, now);
      var lt := AfterBrews(ds, now);
      forall k | 0 <= k < |ds|
        ensures lt.minBrewTimeMs <= ds[k] <= lt.maxBrewTimeMs
      {
        if k < |ds| - 1 {
          assert ds[k] == init[k];
        }
      }
      if |init| == 0 {
        assert ds[0] == lt.minBrewTimeMs && ds[0] == lt.maxBrewTimeMs;
      } else {
        if lt.minBrewTimeMs == d {
          assert ds[|ds| - 1] == lt.minBrewTimeMs;
        } else {
          var k :| 0 <= k < |init| && init[k] == before.minBrewTimeMs;
          assert ds[k] == lt.minBrewTimeMs;
        }
        if lt.maxBrewTimeMs == d {
          assert ds[|ds| - 1] == lt.maxBrewTimeMs;
        } else {
          var k :| 0 <= k < |init| && init[k] == before.maxBrewTimeMs;
          assert ds[k] == lt.maxBrewTimeMs;
        }
      }
    }
  }

  // ---------------------------------------------------------------------------
  // Rings
  // ---------------------------------------------------------------------------

  /** The cell `i` places back from the newest: `(head - 1 - i + capacity) % capacity`. */
  function Back(head: nat, i: nat, capacity: nat): (r: nat)
    requires head < capacity && i < capacity
    ensures r < capacity && r == (head - 1 - i + capacity) % capacity
  {
    if head >= i + 1 then head - 1 - i else head + capacity - 1 - i
  }

  /** The first `n` elements of `s`, or all of a shorter `s`. */
  function Take<T>(s: seq<T>, n: nat): (r: seq<T>)
    ensures |r| == if |s| <= n then |s| else n
    ensures forall k :: 0 <= k < |r| ==> r[k] == s[k]
  {
    if |s| <= n then s else s[..n]
  }

  /**
   * A fixed-capacity ring keeping the newest entries, as `addBrewRecord`,
   * `addPowerSample` and `addDailySummary` each maintain one; `recent` is
   * what it holds, newest first.
   */
  class Ring<T> {
    const items: array<T>
    const capacity: nat
    /** The next write position. */
    var head: nat
    var count: nat
    ghost var recent: seq<T>

    ghost predicate Valid()
      reads this, items
    {
      0 < capacity && items.Length == capacity && head < capacity && count <= capacity
      && |recent| == count
      && forall i :: 0 <= i < count ==> items[Back(head, i, capacity)] == recent[i]
    }

    constructor(capacity: nat, fill: T)
      requires capacity > 0
      ensures Valid() && fresh(items) && this.capacity == capacity && recent == [] && head == 0
    {
      items := new T[capacity](_ => fill);
      this.capacity := capacity;
      head, count := 0, 0;
      recent := [];
    }

    /** `add*`: the entry goes in at `head`, `head` advances modulo the capacity, and `count` saturates. */
    method Add(x: T)
      requires Valid()
      modifies this, items
      ensures Valid() && recent == Take([x] + old(recent), capacity)
      ensures head == if old(head) + 1 < capacity then old(head) + 1 else 0
      ensures count == if old(count) < capacity then old(count) + 1 else capacity
    {
      ghost var h := head;
      items[head] := x;
      head := if head + 1 < capacity then head + 1 else 0;  // (head + 1) % capacity
      if count < capacity {
        count := count + 1;
      }
      recent := Take([x] + recent, capacity);
      forall i | 0 <= i < count
        ensures items[Back(head, i, capacity)] == recent[i]
      {
        if i > 0 {
          assert Back(head, i, capacity) == Back(h, i - 1, capacity);
        }
      }
    }

    /** The entry `i` places back from the newest. */
    function Get(i: nat): (r: T)
      requires Valid() && i < count
      reads this, items
      ensures r == recent[i]
    {
      items[Back(head, i, capacity)]
    }

    /** Replaces the entry `i` places back from the newest; nothing else changes. */
    method Set(i: nat, x: T)
      requires Valid() && i < count
      modifies this`recent, items
      ensures Valid() && recent == old(recent)[i := x]
    {
      var p := Back(head, i, capacity);
      items[p] := x;
      recent := recent[i := x];
      forall j | 0 <= j < count
        ensures items[Back(head, j, capacity)] == recent[j]
      {
        if j != i {
          BackInjective(head, i, j, capacity);
        }
      }
    }

    /** Empties the ring, as `resetAll` does by zeroing `count` and `head`. */
    method Clear()
      requires Valid()
      modifies this`head, this`count, this`recent
      ensures Valid() && recent == [] && head == 0
    {
      head, count := 0, 0;
      recent := [];
    }

    /** The walk of `getPowerHistory`/`getDailyHistory` and of the savers: the held entries, oldest first. */
    method Chronological() returns (list: seq<T>)
      requires Valid()
      ensures |list| == count
      ensures forall k :: 0 <= k < count ==> list[k] == recent[count - 1 - k]
    {
      list := [];
      var i := 0;
      while i < count
        invariant 0 <= i <= count && |list| == i
        invariant forall k :: 0 <= k < i ==> list[k] == recent[count - 1 - k]
      {
        var idx := (head + capacity + i - count) % capacity;
        assert idx == Back(head, count - 1 - i, capacity) by {
          OldestFirstIndex(head, count, i, capacity);
        }
        list := list + [items[idx]];
        i := i + 1;
      }
    }
  }

  lemma BackInjective(head: nat, i: nat, j: nat, capacity: nat)
    requires head < capacity && i < capacity && j < capacity && i != j
    ensures Back(head, i, capacity) != Back(head, j, capacity)
  {
  }

  /** The oldest-first index `(head - count + i + capacity) % capacity` is `count - 1 - i` back from the newest. */
  lemma OldestFirstIndex(head: nat, count: nat, i: nat, capacity: nat)
    requires head < capacity && i < count <= capacity
    ensures (head + capacity + i - count) % capacity == Back(head, count - 1 - i, capacity)
  {
    var x := head + capacity + i - count;
    if x >= capacity {
      assert x - capacity < capacity;
      assert x % capacity == x - capacity;
    } else {
      assert x % capacity == x;
    }
  }

  /** After additions from empty, a ring holds the newest min(n, capacity) entries, newest first. */
  function Pushed<T>(xs: seq<T>, capacity: nat): (r: seq<T>)
    ensures |r| == if |xs| <= capacity then |xs| else capacity
  {
    if |xs| == 0 then [] else Take([xs[|xs| - 1]] + Pushed(xs[..|xs| - 1], capacity), capacity)
  }

  /** Entry `i` back from the newest is the `i`-th last one added. */
  lemma {:induction false} PushedNewestFirst<T>(xs: seq<T>, capacity: nat, i: nat)
    requires i < |Pushed(xs, capacity)|
    ensures Pushed(xs, capacity)[i] == xs[|xs| - 1 - i]
  {
    if i > 0 {
      PushedNewestFirst(xs[..|xs| - 1], capacity, i - 1);
    }
  }

  // ---------------------------------------------------------------------------
  // Period statistics
  // ---------------------------------------------------------------------------

  /** `PeriodStats` without its floating-point fields. */
  datatype PeriodStats = PeriodStats(shotCount: nat, totalBrewTimeMs: nat, minBrewTimeMs: nat, maxBrewTimeMs: nat)

  /** The brews, in the given order, made at or after `start`. */
  function Since(records: seq<BrewRecord>, start: nat): (r: seq<BrewRecord>)
    ensures |r| <= |records|
    ensures forall k :: 0 <= k < |r| ==> r[k] in records && r[k].timestamp >= start
  {
    if |records| == 0 then []
    else
      var init := Since(records[..|records| - 1], start);
      var last := records[|records| - 1];
      if last.timestamp >= start then init + [last] else init
  }

  /** One more brew folded into the statistics, the first setting both bounds. */
  function Fold(s: PeriodStats, d: nat): PeriodStats {
    PeriodStats(s.shotCount + 1, s.totalBrewTimeMs + d,
      if s.shotCount == 0 || d < s.minBrewTimeMs then d else s.minBrewTimeMs,
      if s.shotCount == 0 || d > s.maxBrewTimeMs then d else s.maxBrewTimeMs)
  }

  /**
   * The statistics of some brews: their number, and bounds that every
   * duration lies within and that some duration attains.
   */
  function Summarize(records: seq<BrewRecord>): (r: PeriodStats)
    ensures r.shotCount == |records|
    ensures forall k :: 0 <= k < |records| ==> r.minBrewTimeMs <= records[k].durationMs <= r.maxBrewTimeMs
    ensures |records| > 0 ==> exists k :: 0 <= k < |records| && records[k].durationMs == r.minBrewTimeMs
    ensures |records| > 0 ==> exists k :: 0 <= k < |records| && records[k].durationMs == r.maxBrewTimeMs
    ensures |records| == 0 ==> r == PeriodStats(0, 0, 0, 0)
  {
    if |records| == 0 then PeriodStats(0, 0, 0, 0)
    else
      var init := records[..|records| - 1];
      var s := Summarize(init);
      var r := Fold(s, records[|records| - 1].durationMs);
      assert forall k :: 0 <= k < |init| ==> records[k] == init[k];
      r
  }

  // ---------------------------------------------------------------------------
  // The manager
  // ---------------------------------------------------------------------------

  class Manager {
    var lifetime: Lifetime
    var maintenance: Maintenance
    var sessionShots: nat
    /** Whether there are changes not yet saved. */
    var dirty: bool
    const brews: Ring<BrewRecord>
    const powers: Ring<PowerSample>
    const dailies: Ring<DailySummary>
    /** `STATS_MIN_BREW_TIME_MS` and `STATS_MAX_BREW_TIME_MS`. */
    const minBrewMs: nat
    const maxBrewMs: nat

    ghost predicate Valid()
      reads this, brews, brews.items, powers, powers.items, dailies, dailies.items
    {
      brews.Valid() && powers.Valid() && dailies.Valid()
      && brews != powers as object && brews != dailies as object && powers != dailies as object
      && brews.items != powers.items as object && brews.items != dailies.items as object
      && powers.items != dailies.items as object
    }

    constructor(brewCapacity: nat, powerCapacity: nat, dailyCapacity: nat, minBrewMs: nat, maxBrewMs: nat)
      requires brewCapacity > 0 && powerCapacity > 0 && dailyCapacity > 0
      ensures Valid() && lifetime == NO_LIFETIME && maintenance == NO_MAINTENANCE && sessionShots == 0
      ensures brews.recent == [] && powers.recent == [] && dailies.recent == []
      ensures brews.capacity == brewCapacity && powers.capacity == powerCapacity && dailies.capacity == dailyCapacity
      ensures this.minBrewMs == minBrewMs && this.maxBrewMs == maxBrewMs
    {
      lifetime := NO_LIFETIME;
      maintenance := NO_MAINTENANCE;
      sessionShots := 0;
      dirty := false;
      brews := new Ring(brewCapacity, BrewRecord(0, 0, 0));
      powers := new Ring(powerCapacity, PowerSample(0));
      dailies := new Ring(dailyCapacity, DailySummary(0, 0, 0, 0, 0));
      this.minBrewMs := minBrewMs;
      this.maxBrewMs := maxBrewMs;
    }

    /**
     * `recordBrew`: a duration outside [min, max] is refused and nothing
     * changes. Otherwise the brew is added to the history (newest first),
     * the lifetime counters take it in, the three maintenance counters and
     * the session count go up by one, and the reminders now due are returned.
     * `now` is the wall-clock time the source reads.
     */
    method RecordBrew(durationMs: nat, now: nat) returns (accepted: bool, due: Due)
      requires Valid()
      modifies this, brews, brews.items
      ensures Valid()
      ensures accepted <==> minBrewMs <= durationMs <= maxBrewMs
      ensures !accepted ==> (lifetime == old(lifetime) && maintenance == old(maintenance)
                             && sessionShots == old(sessionShots) && dirty == old(dirty)
                             && brews.recent == old(brews.recent) && brews.head == old(brews.head)
                             && brews.count == old(brews.count))
      ensures accepted ==> (brews.recent == Take([BrewRecord(now, durationMs, 0)] + old(brews.recent), brews.capacity)
                            && lifetime == AddBrew(old(lifetime), durationMs, now)
                            && maintenance == CountShot(old(maintenance))
                            && sessionShots == old(sessionShots) + 1 && dirty
                            && due == MaintenanceDue(maintenance, now))
      ensures powers.recent == old(powers.recent) && dailies.recent == old(dailies.recent)
    {
      due := Due(false, None);
      if durationMs < minBrewMs || durationMs > maxBrewMs {
        return false, due;
      }
      brews.Add(BrewRecord(now, durationMs, 0));
      lifetime := AddBrew(lifetime, durationMs, now);
      maintenance := CountShot(maintenance);
      sessionShots := sessionShots + 1;
      dirty := true;
      due := MaintenanceDue(maintenance, now);
      accepted := true;
    }

    /** `recordSteamCycle`. */
    method RecordSteamCycle()
      modifies this`lifetime, this`dirty
      ensures lifetime == old(lifetime).(totalSteamCycles := old(lifetime).totalSteamCycles + 1) && dirty
    {
      lifetime := lifetime.(totalSteamCycles := lifetime.totalSteamCycles + 1);
      dirty := true;
    }

    /** `recordMaintenance`, with `now` the wall-clock time. */
    method RecordMaintenanceEvent(kind: string, now: nat)
      modifies this`maintenance
      ensures maintenance == RecordMaintenance(old(maintenance), kind, now)
    {
      maintenance := RecordMaintenance(maintenance, kind, now);
    }

    /**
     * `rateBrew`: an index past the held brews or a rating above 5 is
     * refused; otherwise the brew `index` places back from the newest takes
     * the rating and nothing else changes.
     */
    method RateBrew(index: nat, rating: nat) returns (ok: bool)
      requires Valid()
      modifies this`dirty, brews`recent, brews.items
      ensures Valid()
      ensures ok <==> index < brews.count && rating <= 5
      ensures ok ==> brews.recent == old(brews.recent)[index := old(brews.recent)[index].(rating := rating)] && dirty
      ensures !ok ==> brews.recent == old(brews.recent) && dirty == old(dirty)
    {
      if index >= brews.count || rating > 5 {
        return false;
      }
      var record := brews.Get(index);
      brews.Set(index, record.(rating := rating));
      dirty := true;
      return true;
    }

    /** `addPowerSample`. */
    method AddPowerSample(sample: PowerSample)
      requires Valid()
      modifies powers, powers.items
      ensures Valid() && powers.recent == Take([sample] + old(powers.recent), powers.capacity)
      ensures brews.recent == old(brews.recent) && dailies.recent == old(dailies.recent)
    {
      powers.Add(sample);
    }

    /** `addDailySummary`. */
    method AddDailySummary(summary: DailySummary)
      requires Valid()
      modifies dailies, dailies.items
      ensures Valid() && dailies.recent == Take([summary] + old(dailies.recent), dailies.capacity)
      ensures brews.recent == old(brews.recent) && powers.recent == old(powers.recent)
    {
      dailies.Add(summary);
    }

    /**
     * `resetAll`: the lifetime and maintenance counters return to zero, every
     * ring is emptied with its head at 0, and the session count is zeroed.
     */
    method ResetAll()
      requires Valid()
      modifies this, brews, powers, dailies
      ensures Valid()
      ensures lifetime == NO_LIFETIME && maintenance == NO_MAINTENANCE && sessionShots == 0
      ensures brews.recent == [] && powers.recent == [] && dailies.recent == []
      ensures brews.head == 0 && powers.head == 0 && dailies.head == 0
    {
      lifetime := NO_LIFETIME;
      maintenance := NO_MAINTENANCE;
      brews.Clear();
      powers.Clear();
      dailies.Clear();
      sessionShots := 0;
    }

    /**
     * `calculatePeriodStats` without the floating-point sums: the held brews
     * made at or after `start`, walked newest first, summarised.
     */
    method CalculatePeriodStats(start: nat) returns (stats: PeriodStats)
      requires Valid()
      ensures stats == Summarize(Since(brews.recent, start))
    {
      stats := PeriodStats(0, 0, 0, 0);
      var i := 0;
      while i < brews.count
        invariant 0 <= i <= brews.count
        invariant stats == Summarize(Since(brews.recent[..i], start))
      {
        var record := brews.Get(i);
        assert brews.recent[..i + 1][..i] == brews.recent[..i];
        if record.timestamp >= start {
          stats := Fold(stats, record.durationMs);
        }
        i := i + 1;
      }
      assert brews.recent[..i] == brews.recent;
    }
  }
}
