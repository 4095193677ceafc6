/** Daily snapshots of one parameter and its long-term rate of change (degradation_tracker.py). */
module DegradationTracker {
  import opened Registers
  import opened LeastSquares

  const MAX_SNAPSHOTS := 730
  const SECONDS_PER_DAY := 86400.0
  const MIN_DAYS := 7

  datatype Snapshot = Snapshot(day: int, low: real, high: real, sum: real, count: nat)

  /** One measurement and its clock. */
  datatype Measured = Measured(value: real, now: real)

  datatype Tracker = Tracker(snapshots: seq<Snapshot>, current: Option<Snapshot>)

  const EMPTY_TRACKER := Tracker([], None)

  /** The day number, truncated toward zero. */
  function Day(now: real): int {
    var d := now / SECONDS_PER_DAY;
    if d >= 0.0 then d.Floor else -((-d).Floor)
  }

  /** A day has 86400 seconds; truncating toward zero gives day 0 two of them. */
  lemma DayExactly(now: real)
    ensures
      var start := Day(now) as real * 86400.0;
      && (now >= 0.0 ==> start <= now < start + 86400.0)
      && (now < 0.0 ==> start - 86400.0 < now <= start)
  {
    var d := now / 86400.0;
    assert d * 86400.0 == now;
  }

  function Keep(snapshots: seq<Snapshot>): seq<Snapshot> {
    if |snapshots| > MAX_SNAPSHOTS then snapshots[|snapshots| - MAX_SNAPSHOTS..] else snapshots
  }

  function Recorded(t: Tracker, m: Measured): Tracker {
    var day, v := Day(m.now), m.value;
    if t.current.None? then t.(current := Some(Snapshot(day, v, v, v, 1)))
    else
      var c := t.current.value;
      if c.day != day then Tracker(Keep(t.snapshots + [c]), Some(Snapshot(day, v, v, v, 1)))
      else t.(current := Some(Snapshot(day, if v < c.low then v else c.low, if v > c.high then v else c.high,
                                       c.sum + v, c.count + 1)))
  }

  function After(run: seq<Measured>): Tracker {
    if run == [] then EMPTY_TRACKER else Recorded(After(run[..|run| - 1]), run[|run| - 1])
  }

  /** All snapshots, today's last. */
  function All(t: Tracker): seq<Snapshot> {
    t.snapshots + if t.current.Some? then [t.current.value] else []
  }

  // ---------- What a day's snapshot says ----------

  function CountOn(run: seq<Measured>, day: int): nat {
    if run == [] then 0
    else CountOn(run[..|run| - 1], day) + if Day(run[|run| - 1].now) == day then 1 else 0
  }

  function SumOn(run: seq<Measured>, day: int): real {
    if run == [] then 0.0
    else SumOn(run[..|run| - 1], day) + if Day(run[|run| - 1].now) == day then run[|run| - 1].value else 0.0
  }

  ghost predicate BoundsOn(run: seq<Measured>, day: int, low: real, high: real) {
    && (forall i :: 0 <= i < |run| && Day(run[i].now) == day ==> low <= run[i].value <= high)
    && (exists i :: 0 <= i < |run| && Day(run[i].now) == day && run[i].value == low)
    && (exists i :: 0 <= i < |run| && Day(run[i].now) == day && run[i].value == high)
  }

  /** The snapshot is exactly what the run says about its day. */
  ghost predicate Exact(run: seq<Measured>, s: Snapshot) {
    s.count == CountOn(run, s.day) && s.sum == SumOn(run, s.day) && BoundsOn(run, s.day, s.low, s.high)
  }

  /** The day number never goes back. */
  ghost predicate Clocked(run: seq<Measured>) {
    forall i, j :: 0 <= i < j < |run| ==> Day(run[i].now) <= Day(run[j].now)
  }

  /** One snapshot a day, in order, each exact. */
  ghost predicate Chronicle(run: seq<Measured>, all: seq<Snapshot>) {
    && (forall i, j :: 0 <= i < j < |all| ==> all[i].day < all[j].day)
    && (forall i :: 0 <= i < |all| ==> Exact(run, all[i]))
  }

  ghost predicate HasDay(all: seq<Snapshot>, day: int) {
    exists j :: 0 <= j < |all| && all[j].day == day
  }

  /** Every day measured since the oldest of these snapshots has one. */
  ghost predicate Covers(run: seq<Measured>, all: seq<Snapshot>) {
    all != [] && forall i :: 0 <= i < |run| && Day(run[i].now) >= all[0].day ==> HasDay(all, Day(run[i].now))
  }

  /** No day since the oldest snapshot is missing, and the oldest is the first day of all until the
      list is full. */
  ghost predicate Complete(run: seq<Measured>, t: Tracker) {
    run != [] ==>
      && Covers(run, All(t))
      && (|t.snapshots| < MAX_SNAPSHOTS ==> All(t)[0].day == Day(run[0].now))
  }

  ghost predicate Faithful(run: seq<Measured>, t: Tracker) {
    && |t.snapshots| <= MAX_SNAPSHOTS && Chronicle(run, All(t))
    && (if run == [] then t == EMPTY_TRACKER else t.current.Some? && t.current.value.day == Day(run[|run| - 1].now))
  }

  lemma {:induction false} NothingOnLaterDay(run: seq<Measured>, day: int)
    requires forall i :: 0 <= i < |run| ==> Day(run[i].now) != day
    ensures CountOn(run, day) == 0 && SumOn(run, day) == 0.0
  {
    if run != [] {
      assert Day(run[|run| - 1].now) != day;
      NothingOnLaterDay(run[..|run| - 1], day);
    }
  }

  /** A measurement of another day leaves a snapshot exact. */
  lemma OtherDayKeeps(run: seq<Measured>, m: Measured, s: Snapshot)
    requires Exact(run, s) && Day(m.now) != s.day
    ensures Exact(run + [m], s)
  {
    hide Day;
    var more := run + [m];
    assert more[..|more| - 1] == run;
    var i :| 0 <= i < |run| && Day(run[i].now) == s.day && run[i].value == s.low;
    var j :| 0 <= j < |run| && Day(run[j].now) == s.day && run[j].value == s.high;
    assert more[i] == run[i] && more[j] == run[j];
  }

  lemma FirstOfDay(run: seq<Measured>, m: Measured)
    requires forall i :: 0 <= i < |run| ==> Day(run[i].now) != Day(m.now)
    ensures Exact(run + [m], Snapshot(Day(m.now), m.value, m.value, m.value, 1))
  {
    NothingOnLaterDay(run, Day(m.now));
    hide Day;
    var more := run + [m];
    assert more[..|more| - 1] == run && more[|run|] == m;
  }

  lemma SameDayGrows(run: seq<Measured>, m: Measured, c: Snapshot)
    requires Exact(run, c) && c.day == Day(m.now)
    ensures Exact(run + [m], Recorded(Tracker([], Some(c)), m).current.value)
  {
    hide Day;
    var more := run + [m];
    assert more[..|more| - 1] == run && more[|run|] == m;
    var i :| 0 <= i < |run| && Day(run[i].now) == c.day && run[i].value == c.low;
    var j :| 0 <= j < |run| && Day(run[j].now) == c.day && run[j].value == c.high;
    assert more[i] == run[i] && more[j] == run[j];
  }

  /** With days that never go back, every snapshot kept holds the count, sum, lowest and highest of
      exactly the measurements of its day, and each day has one snapshot, in order. */
  lemma {:induction false} SnapshotsAreExact(run: seq<Measured>)
    requires Clocked(run)
    ensures Faithful(run, After(run))
  {
    if run != [] {
      var front, m := run[..|run| - 1], run[|run| - 1];
      assert run == front + [m];
      SnapshotsAreExact(front);
      RecordKeeps(front, m, After(front));
    }
  }

  function Fresh(m: Measured): Snapshot { Snapshot(Day(m.now), m.value, m.value, m.value, 1) }

  lemma NewDay(run: seq<Measured>, m: Measured, all: seq<Snapshot>)
    requires Chronicle(run, all)
    requires forall i :: 0 <= i < |run| ==> Day(run[i].now) < Day(m.now)
    requires forall i :: 0 <= i < |all| ==> all[i].day < Day(m.now)
    ensures Chronicle(run + [m], all + [Fresh(m)])
  {
    FirstOfDay(run, m);
    hide Exact, Day;
    forall i | 0 <= i < |all| ensures Exact(run + [m], all[i]) {
      OtherDayKeeps(run, m, all[i]);
    }
  }

  lemma SameDay(run: seq<Measured>, m: Measured, all: seq<Snapshot>, c: Snapshot)
    requires Chronicle(run, all + [c]) && c.day == Day(m.now)
    ensures Chronicle(run + [m], all + [Recorded(Tracker([], Some(c)), m).current.value])
  {
    var last := all + [c];
    assert last[|all|] == c && forall i :: 0 <= i < |all| ==> last[i] == all[i];
    assert Exact(run, c);
    SameDayGrows(run, m, c);
    hide Exact, Day;
    forall i | 0 <= i < |all| ensures Exact(run + [m], all[i]) && all[i].day < c.day {
      assert last[i].day < last[|all|].day;
      OtherDayKeeps(run, m, all[i]);
    }
  }

  lemma Fewer(run: seq<Measured>, all: seq<Snapshot>, k: nat)
    requires Chronicle(run, all) && k <= |all|
    ensures Chronicle(run, all[k..])
  {
    hide Exact;
  }

  lemma RecordKeeps(run: seq<Measured>, m: Measured, t: Tracker)
    requires Faithful(run, t) && Clocked(run + [m])
    ensures Faithful(run + [m], Recorded(t, m))
  {
    hide Chronicle, Clocked, Day;
    if run == [] {
      NoDays(run);
      NewDay(run, m, []);
      assert All(Recorded(t, m)) == [] + [Fresh(m)];
    } else {
      var c := t.current.value;
      if c.day != Day(m.now) {
        LastDayIsLatest(run, m);
        DaysUpTo(run, t);
        NewDay(run, m, All(t));
        var kept := Recorded(t, m).snapshots;
        var all := All(t) + [Fresh(m)];
        assert kept + [Fresh(m)] == all[|all| - |kept| - 1..];
        Fewer(run + [m], all, |all| - |kept| - 1);
      } else {
        SameDay(run, m, t.snapshots, c);
      }
    }
  }

  lemma NoDays(run: seq<Measured>)
    requires run == []
    ensures Chronicle(run, [])
  {}

  lemma DaysUpTo(run: seq<Measured>, t: Tracker)
    requires Faithful(run, t) && run != []
    ensures forall i :: 0 <= i < |All(t)| ==> All(t)[i].day <= Day(run[|run| - 1].now)
  {
    var all := All(t);
    hide Exact, Day;
    assert all[|all| - 1] == t.current.value;
  }

  lemma LastDayIsLatest(run: seq<Measured>, m: Measured)
    requires run != [] && Clocked(run + [m]) && Day(run[|run| - 1].now) != Day(m.now)
    ensures forall i :: 0 <= i < |run| ==> Day(run[i].now) < Day(m.now)
  {
    var all := run + [m];
    forall i | 0 <= i < |run| ensures Day(run[i].now) < Day(m.now) {
      assert all[i] == run[i] && all[|run| - 1] == run[|run| - 1] && all[|run|] == m;
      assert Day(all[|run| - 1].now) <= Day(all[|run|].now);
      if i < |run| - 1 { assert Day(all[i].now) <= Day(all[|run| - 1].now); }
    }
  }

  /** And no day is left out: every day measured since the oldest kept snapshot has one, and until
      730 earlier days have been kept the oldest is the first day measured. */
  lemma {:induction false} NoDayMissing(run: seq<Measured>)
    requires Clocked(run)
    ensures Complete(run, After(run))
  {
    if run != [] {
      var front, m := run[..|run| - 1], run[|run| - 1];
      assert run == front + [m];
      SnapshotsAreExact(front);
      NoDayMissing(front);
      RecordCompletes(front, m, After(front));
    }
  }

  predicate Ascending(all: seq<Snapshot>) {
    forall i, j :: 0 <= i < j < |all| ==> all[i].day < all[j].day
  }

  /** Dropping the oldest days keeps all the others. */
  lemma LaterDaysStay(all: seq<Snapshot>, k: nat, more: seq<Snapshot>, d: int)
    requires Ascending(all) && k < |all| && d >= all[k].day && HasDay(all, d)
    ensures HasDay(all[k..] + more, d)
  {
    var j :| 0 <= j < |all| && all[j].day == d;
    assert j >= k;
    assert (all[k..] + more)[j - k] == all[j];
  }

  /** The list of days after one more measurement: a new day at its end, with the oldest dropped when
      it is full, or the same days. */
  lemma RecordedDays(t: Tracker, m: Measured)
    requires t.current.Some?
    ensures
      var all, next := All(t), All(Recorded(t, m));
      if t.current.value.day != Day(m.now)
      then
        var k := if |t.snapshots| >= MAX_SNAPSHOTS then |t.snapshots| + 1 - MAX_SNAPSHOTS else 0;
        next == all[k..] + [Fresh(m)] && k < |all| && (k > 0 ==> |Recorded(t, m).snapshots| == MAX_SNAPSHOTS)
      else
        && |next| == |all| && (forall j :: 0 <= j < |all| ==> next[j].day == all[j].day)
        && Recorded(t, m).snapshots == t.snapshots
  {
    hide Day;
  }

  lemma FirstCompletes(m: Measured)
    ensures Complete([m], Recorded(EMPTY_TRACKER, m))
  {
    hide Day;
    var next := All(Recorded(EMPTY_TRACKER, m));
    assert next == [Fresh(m)];
    HasLast(next);
  }

  lemma LaterCompletes(run: seq<Measured>, m: Measured, t: Tracker)
    requires run != [] && t.current.Some? && Ascending(All(t)) && Complete(run, t)
    ensures Complete(run + [m], Recorded(t, m))
  {
    hide Recorded, All, HasDay, Covers, Ascending, Day;
    var all := All(t);
    assert (run + [m])[0] == run[0];
    RecordedDays(t, m);
    if t.current.value.day != Day(m.now) {
      var k := if |t.snapshots| >= MAX_SNAPSHOTS then |t.snapshots| + 1 - MAX_SNAPSHOTS else 0;
      NewDayCompletes(run, m, all, k);
    } else {
      LastIsToday(t, m);
      SameDayCompletes(run, m, all, All(Recorded(t, m)));
    }
  }

  lemma LastIsToday(t: Tracker, m: Measured)
    ensures var next := All(Recorded(t, m)); next != [] && next[|next| - 1].day == Day(m.now)
  {
    hide Day;
  }

  lemma RecordCompletes(run: seq<Measured>, m: Measured, t: Tracker)
    requires Faithful(run, t) && Complete(run, t)
    ensures Complete(run + [m], Recorded(t, m))
  {
    hide Recorded, All, HasDay, Covers, Day, Exact, Complete;
    if run == [] {
      assert run + [m] == [m];
      FirstCompletes(m);
    } else {
      LaterCompletes(run, m, t);
    }
  }

  lemma NewDayCompletes(run: seq<Measured>, m: Measured, all: seq<Snapshot>, k: nat)
    requires Covers(run, all) && Ascending(all) && k < |all|
    ensures Covers(run + [m], all[k..] + [Fresh(m)])
  {
    hide Day;
    var next := all[k..] + [Fresh(m)];
    assert next[|next| - 1] == Fresh(m) && next[0] == all[k];
    assert all[0].day <= all[k].day;
    hide HasDay, Ascending;
    forall i | 0 <= i <= |run| && Day((run + [m])[i].now) >= next[0].day ensures HasDay(next, Day((run + [m])[i].now)) {
      if i < |run| {
        assert (run + [m])[i] == run[i];
        LaterDaysStay(all, k, [Fresh(m)], Day(run[i].now));
      } else {
        HasLast(next);
      }
    }
  }

  lemma HasLast(all: seq<Snapshot>)
    requires all != []
    ensures HasDay(all, all[|all| - 1].day)
  {}

  lemma SameDayCompletes(run: seq<Measured>, m: Measured, all: seq<Snapshot>, next: seq<Snapshot>)
    requires Covers(run, all) && |next| == |all| && (forall j :: 0 <= j < |all| ==> next[j].day == all[j].day)
    requires next[|next| - 1].day == Day(m.now)
    ensures Covers(run + [m], next)
  {
    hide Day;
    forall i | 0 <= i <= |run| && Day((run + [m])[i].now) >= next[0].day ensures HasDay(next, Day((run + [m])[i].now)) {
      if i < |run| {
        assert (run + [m])[i] == run[i];
        var j :| 0 <= j < |all| && all[j].day == Day(run[i].now);
        assert next[j].day == Day(run[i].now);
      } else {
        HasLast(next);
      }
    }
  }

  // ---------- The rate of change ----------

  function Days(all: seq<Snapshot>): seq<real> {
    seq(|all|, i requires 0 <= i < |all| => (all[i].day - all[0].day) as real)
  }

  function Averages(all: seq<Snapshot>): seq<real> {
    seq(|all|, i requires 0 <= i < |all| => if all[i].count > 0 then all[i].sum / all[i].count as real else 0.0)
  }

  /** The centred regression over all days, per thirty days. */
  function RatePerMonth(t: Tracker): Option<real> {
    var all := All(t);
    if |all| < MIN_DAYS then None
    else
      var slope := CentredSlope(Days(all), Averages(all));
      if slope.None? then None else Some(slope.value * 30.0)
  }

  lemma {:induction false} MeasuredCounts(run: seq<Measured>, i: nat)
    requires i < |run|
    ensures CountOn(run, Day(run[i].now)) > 0
  {
    if i < |run| - 1 {
      MeasuredCounts(run[..|run| - 1], i);
    }
  }

  /** What the regression is over: for every kept day its distance from the oldest, and the average
      of the values measured on it. */
  lemma AveragesAreDaily(run: seq<Measured>, i: nat)
    requires Clocked(run) && i < |All(After(run))|
    ensures
      var all := All(After(run));
      var day := all[i].day;
      && CountOn(run, day) > 0
      && Averages(all)[i] * CountOn(run, day) as real == SumOn(run, day)
      && Days(all)[i] + all[0].day as real == day as real
  {
    hide CountOn, SumOn, Day, Clocked, After, All;
    SnapshotsAreExact(run);
    SnapshotCounts(run, All(After(run))[i]);
    hide Exact, Chronicle;
  }

  lemma SnapshotCounts(run: seq<Measured>, s: Snapshot)
    requires Exact(run, s)
    ensures s.count == CountOn(run, s.day) > 0 && s.sum == SumOn(run, s.day)
  {
    hide CountOn, SumOn, Day;
    var k :| 0 <= k < |run| && Day(run[k].now) == s.day && run[k].value == s.low;
    MeasuredCounts(run, k);
  }

  /** In every run with days that never go back, the rate exists exactly from the seventh day on,
      and is thirty times the raw-sum slope of the daily averages. */
  lemma RateFromSeventhDay(run: seq<Measured>)
    requires Clocked(run)
    ensures var all := All(After(run));
      && (RatePerMonth(After(run)).Some? <==> |all| >= MIN_DAYS)
      && (|all| >= MIN_DAYS ==>
           RawSlope(Days(all), Averages(all)).Some?
           && RatePerMonth(After(run)).value == RawSlope(Days(all), Averages(all)).value * 30.0)
  {
    SnapshotsAreExact(run);
    var all := All(After(run));
    if |all| >= MIN_DAYS {
      SlopesAgree(Days(all), Averages(all));
      DenominatorVanishes(Days(all));
      assert all[0].day < all[1].day;
      assert Days(all)[0] != Days(all)[1];
      hide Cross, Distances, Averages, Faithful;
    }
  }

  // ---------- The tracker ----------

  class TrackedParameter {
    var snapshots: seq<Snapshot>
    var currentSnapshot: Option<Snapshot>

    function Now(): Tracker
      reads this
    {
      Tracker(snapshots, currentSnapshot)
    }

    constructor ()
      ensures Now() == EMPTY_TRACKER
    {
      snapshots, currentSnapshot := [], None;
    }

    method Record(m: Measured)
      modifies this
      ensures Now() == Recorded(old(Now()), m)
    {
      var day := Day(m.now);
      if currentSnapshot.None? || currentSnapshot.value.day != day {
        if currentSnapshot.Some? {
          snapshots := snapshots + [currentSnapshot.value];
          if |snapshots| > MAX_SNAPSHOTS { snapshots := snapshots[|snapshots| - MAX_SNAPSHOTS..]; }
        }
        currentSnapshot := Some(Snapshot(day, m.value, m.value, m.value, 1));
      } else {
        var c := currentSnapshot.value;
        c := c.(low := if m.value < c.low then m.value else c.low,
                high := if m.value > c.high then m.value else c.high);
        c := c.(sum := c.sum + m.value, count := c.count + 1);
        currentSnapshot := Some(c);
      }
    }
  }
}
