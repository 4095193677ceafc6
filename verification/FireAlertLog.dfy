/** The fire-safety monitor's alert log: deduplication, the 500-entry bound and the clearing of
    old alerts, compared with a log that never forgets (fire_safety.py). */
module FireAlertLog {
  import opened Registers

  datatype Level = Safe | Monitor | Elevated | High | Emergency

  datatype Category =
    | Isolation | DcArcIndicator | DcImbalance | BatteryThermal
    | BatteryVoltageAnomaly | ControllerThermal | GridEmergency | VoltageExtreme

  /** What a check reports; title tells apart the phases of one category. */
  datatype Finding = Finding(level: Level, category: Category, title: string)

  datatype Alert = Alert(at: real, what: Finding)

  type Key = (Category, Level)

  function KeyOf(f: Finding): Key { (f.category, f.level) }

  const MAX_ALERTS := 500
  const ACTIVE_SECONDS := 3600.0
  const IDLE_SECONDS := 300.0
  const CHECK_INTERVAL := 5.0
  const CONFIRM_POLLS := 2

  predicate IsActive(a: Alert, t: real) { t - a.at < ACTIVE_SECONDS }

  predicate Thermal(c: Category) {
    c == BatteryThermal || c == BatteryVoltageAnomaly || c == ControllerThermal
  }

  /** What clearing keeps while the panels do not produce. */
  predicate Kept(a: Alert, t: real) {
    t - a.at < if Thermal(a.what.category) then ACTIVE_SECONDS else IDLE_SECONDS
  }

  function Select(log: seq<Alert>, keep: Alert -> bool): seq<Alert> {
    if log == [] then []
    else
      var a := log[|log| - 1];
      Select(log[..|log| - 1], keep) + if keep(a) then [a] else []
  }

  function Active(log: seq<Alert>, t: real): seq<Alert> { Select(log, a => IsActive(a, t)) }

  function Cleared(log: seq<Alert>, pvActive: bool, t: real): seq<Alert> {
    if pvActive then log else Select(log, a => Kept(a, t))
  }

  function Keys(log: seq<Alert>): set<Key> {
    set i | 0 <= i < |log| :: KeyOf(log[i].what)
  }

  predicate Reports(alerts: seq<Alert>, level: Level) {
    exists i :: 0 <= i < |alerts| && alerts[i].what.level == level
  }

  function Risk(active: seq<Alert>): Level {
    if Reports(active, Emergency) then Emergency
    else if Reports(active, High) then High
    else if Reports(active, Elevated) then Elevated
    else if Reports(active, Monitor) then Monitor
    else Safe
  }

  /** A deque of at most `bound` entries, or of any length. */
  function Bounded(log: seq<Alert>, bound: Option<nat>): seq<Alert> {
    if bound.Some? && |log| > bound.value then log[|log| - bound.value..] else log
  }

  datatype Added = Added(log: seq<Alert>, keys: set<Key>, reported: seq<Alert>)

  function AddOne(s: Added, now: real, f: Finding, bound: Option<nat>): Added {
    if KeyOf(f) in s.keys then s
    else Added(Bounded(s.log + [Alert(now, f)], bound), s.keys + {KeyOf(f)}, s.reported + [Alert(now, f)])
  }

  function AddAll(s: Added, now: real, findings: seq<Finding>, bound: Option<nat>): Added {
    if findings == [] then s
    else AddOne(AddAll(s, now, findings[..|findings| - 1], bound), now, findings[|findings| - 1], bound)
  }

  // ---------- Confirmation of grid findings ----------

  type GridKey = (Category, string)

  function GridKeyOf(f: Finding): GridKey { (f.category, f.title) }

  function CountOf(streak: map<GridKey, nat>, k: GridKey): nat {
    if k in streak then streak[k] else 0
  }

  function Streaks(streak: map<GridKey, nat>, grid: seq<Finding>): map<GridKey, nat> {
    map f | f in grid :: GridKeyOf(f) := CountOf(streak, GridKeyOf(f)) + 1
  }

  function Confirmed(streak: map<GridKey, nat>, grid: seq<Finding>): seq<Finding> {
    if grid == [] then []
    else
      var f := grid[|grid| - 1];
      Confirmed(streak, grid[..|grid| - 1]) + if CountOf(streak, GridKeyOf(f)) >= CONFIRM_POLLS then [f] else []
  }

  // ---------- Runs ----------

  /** One call of analyze: what its checks find, and the clock at its start, when old alerts are
      cleared and when the active ones are collected. */
  datatype Poll = Poll(now: real, clearedAt: real, collectedAt: real, pvActive: bool, standby: bool,
                       thermal: seq<Finding>, grid: seq<Finding>, pv: seq<Finding>)

  datatype State = State(log: seq<Alert>, lastCheck: real, streak: map<GridKey, nat>)

  const INITIAL := State([], 0.0, map[])

  predicate Due(s: State, p: Poll) { p.now - s.lastCheck >= CHECK_INTERVAL }

  function Findings(streak: map<GridKey, nat>, p: Poll): seq<Finding> {
    p.thermal + Confirmed(streak, p.grid) + if p.pvActive && !p.standby then p.pv else []
  }

  /** The log after clearing, with the keys active when they are collected. */
  function Collected(log: seq<Alert>, p: Poll): Added {
    var left := Cleared(log, p.pvActive, p.clearedAt);
    Added(left, Keys(Active(left, p.collectedAt)), [])
  }

  function Analyzed(s: State, p: Poll, bound: Option<nat>): (State, seq<Alert>) {
    if !Due(s, p) then (s, [])
    else
      var streak := Streaks(s.streak, p.grid);
      var added := AddAll(Collected(s.log, p), p.now, Findings(streak, p), bound);
      (State(added.log, p.now, streak), added.reported)
  }

  function Run(polls: seq<Poll>, bound: Option<nat>): State {
    if polls == [] then INITIAL
    else Analyzed(Run(polls[..|polls| - 1], bound), polls[|polls| - 1], bound).0
  }

  function End(polls: seq<Poll>): real {
    if polls == [] then 0.0 else polls[|polls| - 1].collectedAt
  }

  /** The monotonic clock of a run. */
  predicate Clocked(polls: seq<Poll>) {
    polls == [] || (
      var p := polls[|polls| - 1];
      Clocked(polls[..|polls| - 1]) && End(polls[..|polls| - 1]) <= p.now <= p.clearedAt <= p.collectedAt)
  }

  // ---------- What every log keeps ----------

  /** Alert a may stand before alert b: it is not younger, and has run out if it says the same. */
  predicate Precedes(a: Alert, b: Alert, t: real) {
    a.at <= b.at && (KeyOf(a.what) == KeyOf(b.what) ==> !IsActive(a, t))
  }

  ghost predicate Orderly(log: seq<Alert>, t: real) {
    && (forall i :: 0 <= i < |log| ==> log[i].at <= t)
    && (forall i, j :: 0 <= i < j < |log| ==> Precedes(log[i], log[j], t))
  }

  /** The bounded log is the full one without a beginning that has run out. */
  ghost predicate Agree(bounded: seq<Alert>, full: seq<Alert>, t: real) {
    && |bounded| <= |full|
    && bounded == full[|full| - |bounded|..]
    && (forall i :: 0 <= i < |full| - |bounded| ==> !IsActive(full[i], t))
  }

  lemma {:induction false} SelectJoins(a: seq<Alert>, b: seq<Alert>, keep: Alert -> bool)
    ensures Select(a + b, keep) == Select(a, keep) + Select(b, keep)
  {
    if b == [] {
      assert a + b == a;
    } else {
      assert (a + b)[..|a + b| - 1] == a + b[..|b| - 1];
      SelectJoins(a, b[..|b| - 1], keep);
    }
  }

  lemma {:induction false} SelectNone(a: seq<Alert>, keep: Alert -> bool)
    requires forall i :: 0 <= i < |a| ==> !keep(a[i])
    ensures Select(a, keep) == []
  {
    if a != [] { SelectNone(a[..|a| - 1], keep); }
  }

  lemma {:induction false} SelectAll(a: seq<Alert>, keep: Alert -> bool)
    ensures forall x :: x in Select(a, keep) <==> x in a && keep(x)
  {
    if a != [] {
      var n := |a| - 1;
      SelectAll(a[..n], keep);
      assert a == a[..n] + [a[n]];
    }
  }

  lemma {:induction false} SelectOrderly(log: seq<Alert>, keep: Alert -> bool, t: real)
    requires Orderly(log, t)
    ensures Orderly(Select(log, keep), t)
  {
    hide Precedes;
    if log != [] {
      var n := |log| - 1;
      assert Orderly(log[..n], t) by { hide Select; }
      SelectOrderly(log[..n], keep, t);
      SelectAll(log[..n], keep);
      var s := Select(log[..n], keep);
      forall i | 0 <= i < |s| ensures Precedes(s[i], log[n], t) && s[i].at <= t {
        assert s[i] in s;
        assert s[i] in log[..n];
      }
    }
  }

  lemma {:induction false} LaterOrderly(log: seq<Alert>, t: real, u: real)
    requires Orderly(log, t) && t <= u
    ensures Orderly(log, u)
  {
    forall i, j | 0 <= i < j < |log| ensures Precedes(log[i], log[j], u) {
      assert Precedes(log[i], log[j], t);
    }
  }

  lemma LaterAgree(b: seq<Alert>, f: seq<Alert>, t: real, u: real)
    requires Agree(b, f, t) && t <= u
    ensures Agree(b, f, u)
  {
    forall i | 0 <= i < |f| - |b| ensures !IsActive(f[i], u) {
      assert !IsActive(f[i], t);
    }
  }

  lemma SelectAgree(b: seq<Alert>, f: seq<Alert>, keep: Alert -> bool, t: real)
    requires Agree(b, f, t)
    ensures Agree(Select(b, keep), Select(f, keep), t)
  {
    hide IsActive;
    var gone := f[..|f| - |b|];
    assert f == gone + b;
    SelectJoins(gone, b, keep);
    SelectAll(gone, keep);
    var g := Select(gone, keep);
    forall i | 0 <= i < |g| ensures !IsActive(g[i], t) {
      assert g[i] in g;
      assert g[i] in gone;
    }
  }

  lemma ActiveAgree(b: seq<Alert>, f: seq<Alert>, t: real)
    requires Agree(b, f, t)
    ensures Active(b, t) == Active(f, t)
  {
    var gone := f[..|f| - |b|];
    assert f == gone + b;
    SelectJoins(gone, b, a => IsActive(a, t));
    SelectNone(gone, a => IsActive(a, t));
  }

  // ---------- At most forty active alerts ----------

  function LevelIndex(l: Level): nat {
    match l case Safe => 0 case Monitor => 1 case Elevated => 2 case High => 3 case Emergency => 4
  }

  function CategoryIndex(c: Category): nat {
    match c
    case Isolation => 0 case DcArcIndicator => 1 case DcImbalance => 2 case BatteryThermal => 3
    case BatteryVoltageAnomaly => 4 case ControllerThermal => 5 case GridEmergency => 6 case VoltageExtreme => 7
  }

  const KEY_COUNT := 40

  function Code(f: Finding): nat { CategoryIndex(f.category) * 5 + LevelIndex(f.level) }

  lemma CodeNamesKey(f: Finding, g: Finding)
    ensures Code(f) < KEY_COUNT
    ensures Code(f) == Code(g) <==> KeyOf(f) == KeyOf(g)
  {
    var i, j := CategoryIndex(f.category), CategoryIndex(g.category);
    assert i < 8 && j < 8 && LevelIndex(f.level) < 5 && LevelIndex(g.level) < 5;
    assert i == j <==> f.category == g.category;
    assert LevelIndex(f.level) == LevelIndex(g.level) <==> f.level == g.level;
  }

  /** Numbers below n, each once: at most n of them. */
  lemma {:induction false} Pigeonhole(s: seq<nat>, n: nat)
    requires forall i :: 0 <= i < |s| ==> s[i] < n
    requires forall i, j :: 0 <= i < j < |s| ==> s[i] != s[j]
    ensures |s| <= n
    decreases n
  {
    if s != [] {
      assert s[|s| - 1] < n;
      // The last number takes the place of n - 1 in the others.
      var m := |s| - 1;
      var rest: seq<nat> := seq(m, i requires 0 <= i < m => if s[i] == n - 1 then s[m] else s[i]);
      Pigeonhole(rest, n - 1);
    }
  }

  ghost predicate DistinctKeys(log: seq<Alert>) {
    forall i, j :: 0 <= i < j < |log| ==> KeyOf(log[i].what) != KeyOf(log[j].what)
  }

  lemma FewKeys(log: seq<Alert>)
    requires DistinctKeys(log)
    ensures |log| <= KEY_COUNT
  {
    var codes := seq(|log|, i requires 0 <= i < |log| => Code(log[i].what));
    forall i | 0 <= i < |codes| ensures codes[i] < KEY_COUNT { CodeNamesKey(log[i].what, log[i].what); }
    forall i, j | 0 <= i < j < |codes| ensures codes[i] != codes[j] {
      CodeNamesKey(log[i].what, log[j].what);
      assert KeyOf(log[i].what) != KeyOf(log[j].what);
    }
    Pigeonhole(codes, KEY_COUNT);
  }

  lemma ActiveAreDistinct(log: seq<Alert>, t: real)
    requires Orderly(log, t)
    ensures DistinctKeys(Active(log, t)) && |Active(log, t)| <= KEY_COUNT
  {
    var active := Active(log, t);
    SelectOrderly(log, a => IsActive(a, t), t);
    SelectAll(log, a => IsActive(a, t));
    forall i, j | 0 <= i < j < |active| ensures KeyOf(active[i].what) != KeyOf(active[j].what) {
      assert active[i] in active;
      assert Precedes(active[i], active[j], t);
    }
    FewKeys(active);
  }

  /** A full log has an old first entry: were it active, all later ones would be too. */
  lemma FirstHasRunOut(log: seq<Alert>, t: real)
    requires Orderly(log, t) && |log| > KEY_COUNT
    ensures !IsActive(log[0], t)
  {
    if IsActive(log[0], t) {
      forall i, j | 0 <= i < j < |log| ensures KeyOf(log[i].what) != KeyOf(log[j].what) {
        assert Precedes(log[i], log[j], t);
        if i > 0 { assert Precedes(log[0], log[i], t); }
      }
      FewKeys(log);
    }
  }

  // ---------- One call keeps the two logs in agreement ----------

  /** The two logs while findings are added: in agreement, orderly, the active keys known. */
  ghost predicate Twins(b: Added, f: Added, now: real, t: real) {
    && Agree(b.log, f.log, t) && Orderly(f.log, t)
    && b.keys == f.keys && b.reported == f.reported
    && |b.log| <= MAX_ALERTS
    && now <= t && (forall i :: 0 <= i < |f.log| ==> f.log[i].at <= now)
    && (forall i :: 0 <= i < |f.log| && IsActive(f.log[i], t) ==> KeyOf(f.log[i].what) in f.keys)
  }

  lemma OrderlySuffix(f: seq<Alert>, k: nat, t: real)
    requires Orderly(f, t) && k <= |f|
    ensures Orderly(f[k..], t)
  {
    hide Precedes;
  }

  lemma AppendOrderly(f: Added, now: real, what: Finding, t: real)
    requires Twins(f, f, now, t) || (Orderly(f.log, t) && now <= t
      && (forall i :: 0 <= i < |f.log| ==> f.log[i].at <= now)
      && (forall i :: 0 <= i < |f.log| && IsActive(f.log[i], t) ==> KeyOf(f.log[i].what) in f.keys))
    requires KeyOf(what) !in f.keys
    ensures Orderly(f.log + [Alert(now, what)], t)
  {
    var log := f.log + [Alert(now, what)];
    forall i, j | 0 <= i < j < |log| ensures Precedes(log[i], log[j], t) {
      if j < |f.log| { assert Precedes(f.log[i], f.log[j], t); }
    }
  }

  lemma AppendAgrees(b: seq<Alert>, f: seq<Alert>, a: Alert, t: real)
    requires Agree(b, f, t) && Orderly(f + [a], t) && |b| <= MAX_ALERTS
    ensures Agree(Bounded(b + [a], Some(MAX_ALERTS)), f + [a], t)
  {
    var gone := |f| - |b|;
    assert (f + [a])[gone..] == b + [a];
    if |b| == MAX_ALERTS {
      OrderlySuffix(f + [a], gone, t);
      FirstHasRunOut(b + [a], t);
      assert (f + [a])[gone] == (b + [a])[0];
      assert (f + [a])[gone + 1..] == (b + [a])[1..];
    }
    forall i | 0 <= i < gone ensures !IsActive((f + [a])[i], t) {
      assert (f + [a])[i] == f[i];
    }
  }

  lemma AddOneTwins(b: Added, f: Added, now: real, what: Finding, t: real)
    requires Twins(b, f, now, t)
    ensures Twins(AddOne(b, now, what, Some(MAX_ALERTS)), AddOne(f, now, what, None), now, t)
  {
    hide Orderly, Agree, IsActive;
    if KeyOf(what) !in f.keys {
      AppendOrderly(f, now, what, t);
      AppendAgrees(b.log, f.log, Alert(now, what), t);
    }
  }

  lemma {:induction false} AddAllTwins(b: Added, f: Added, now: real, findings: seq<Finding>, t: real)
    requires Twins(b, f, now, t)
    ensures Twins(AddAll(b, now, findings, Some(MAX_ALERTS)), AddAll(f, now, findings, None), now, t)
  {
    hide Twins, AddOne;
    if findings != [] {
      var front := findings[..|findings| - 1];
      AddAllTwins(b, f, now, front, t);
      AddOneTwins(AddAll(b, now, front, Some(MAX_ALERTS)), AddAll(f, now, front, None), now,
                  findings[|findings| - 1], t);
    }
  }

  lemma {:induction false} SelectShrinks(log: seq<Alert>, keep: Alert -> bool)
    ensures |Select(log, keep)| <= |log|
  {
    if log != [] { SelectShrinks(log[..|log| - 1], keep); }
  }

  lemma ClearedTwins(b: seq<Alert>, f: seq<Alert>, pvActive: bool, at: real, t: real)
    requires Agree(b, f, t) && Orderly(f, t) && |b| <= MAX_ALERTS
    ensures Agree(Cleared(b, pvActive, at), Cleared(f, pvActive, at), t) && Orderly(Cleared(f, pvActive, at), t)
    ensures |Cleared(b, pvActive, at)| <= MAX_ALERTS
    ensures forall x :: x in Cleared(f, pvActive, at) ==> x in f
  {
    if !pvActive {
      SelectAgree(b, f, a => Kept(a, at), t);
      SelectOrderly(f, a => Kept(a, at), t);
      SelectShrinks(b, a => Kept(a, at));
      SelectAll(f, a => Kept(a, at));
    }
  }

  lemma CollectedTwins(b: seq<Alert>, f: seq<Alert>, p: Poll, t: real)
    requires Agree(b, f, t) && Orderly(f, t) && |b| <= MAX_ALERTS
    requires t <= p.now <= p.clearedAt <= p.collectedAt
    ensures Twins(Collected(b, p), Collected(f, p), p.now, p.collectedAt)
  {
    hide Agree, Precedes, Cleared;
    var u := p.collectedAt;
    LaterAgree(b, f, t, u);
    LaterOrderly(f, t, u);
    ClearedTwins(b, f, p.pvActive, p.clearedAt, u);
    var left := Cleared(f, p.pvActive, p.clearedAt);
    ActiveAgree(Cleared(b, p.pvActive, p.clearedAt), left, u);
    SelectAll(left, a => IsActive(a, u));
    forall i | 0 <= i < |left| ensures left[i].at <= p.now {
      assert left[i] in f;
    }
    var active := Active(left, u);
    forall i | 0 <= i < |left| && IsActive(left[i], u) ensures KeyOf(left[i].what) in Keys(active) {
      assert left[i] in left;
      assert left[i] in active;
      var k :| 0 <= k < |active| && active[k] == left[i];
    }
  }

  lemma {:induction false} LogsAgree(polls: seq<Poll>)
    requires Clocked(polls)
    ensures
      var b, f := Run(polls, Some(MAX_ALERTS)), Run(polls, None);
      && Agree(b.log, f.log, End(polls)) && Orderly(f.log, End(polls)) && |b.log| <= MAX_ALERTS
      && b.lastCheck == f.lastCheck && b.streak == f.streak
  {
    hide Agree, Orderly, Collected, Findings, Streaks;
    if polls == [] {
      EmptyLogsAgree();
    } else {
      var front, p := polls[..|polls| - 1], polls[|polls| - 1];
      LogsAgree(front);
      var b, f := Run(front, Some(MAX_ALERTS)), Run(front, None);
      LaterAgree(b.log, f.log, End(front), p.collectedAt);
      LaterOrderly(f.log, End(front), p.collectedAt);
      CollectedTwins(b.log, f.log, p, End(front));
      var found := Findings(Streaks(b.streak, p.grid), p);
      AddAllTwins(Collected(b.log, p), Collected(f.log, p), p.now, found, p.collectedAt);
    }
  }

  lemma EmptyLogsAgree()
    ensures Agree([], [], 0.0) && Orderly([], 0.0)
  {}

  /** Nothing that matters is ever lost: in every run, at every later time, the active alerts and
      the risk level are those of a log without bound, no two active alerts say the same, and
      there are at most forty of them. */
  lemma NothingActiveIsLost(polls: seq<Poll>, t: real)
    requires Clocked(polls) && End(polls) <= t
    ensures
      var kept := Active(Run(polls, Some(MAX_ALERTS)).log, t);
      && kept == Active(Run(polls, None).log, t)
      && Risk(kept) == Risk(Active(Run(polls, None).log, t))
      && DistinctKeys(kept) && |kept| <= KEY_COUNT
  {
    LogsAgree(polls);
    var b, f := Run(polls, Some(MAX_ALERTS)).log, Run(polls, None).log;
    LaterAgree(b, f, End(polls), t);
    LaterOrderly(f, End(polls), t);
    ActiveAgree(b, f, t);
    ActiveAreDistinct(f, t);
  }

  /** And every call reports the same alerts as it would with a log without bound. */
  lemma SameReports(polls: seq<Poll>, p: Poll)
    requires Clocked(polls + [p])
    ensures Analyzed(Run(polls, Some(MAX_ALERTS)), p, Some(MAX_ALERTS)).1 == Analyzed(Run(polls, None), p, None).1
  {
    hide Agree, Orderly, Collected, Findings, Streaks;
    assert (polls + [p])[..|polls|] == polls;
    LogsAgree(polls);
    var b, f := Run(polls, Some(MAX_ALERTS)), Run(polls, None);
    CollectedTwins(b.log, f.log, p, End(polls));
    AddAllTwins(Collected(b.log, p), Collected(f.log, p), p.now, Findings(Streaks(b.streak, p.grid), p), p.collectedAt);
  }

  // ---------- No finding is silent ----------

  ghost predicate Voiced(log: seq<Alert>, k: Key, t: real) {
    exists i :: 0 <= i < |log| && IsActive(log[i], t) && KeyOf(log[i].what) == k
  }

  lemma {:induction false} AddAllVoices(s: Added, now: real, findings: seq<Finding>, t: real, k: Key)
    requires t - now < ACTIVE_SECONDS && (k in s.keys ==> Voiced(s.log, k, t))
    ensures var added := AddAll(s, now, findings, None);
      && (k in added.keys ==> Voiced(added.log, k, t))
      && (k in added.keys <==> k in s.keys || exists f :: f in findings && KeyOf(f) == k)
  {
    if findings != [] {
      var front, f := findings[..|findings| - 1], findings[|findings| - 1];
      assert findings == front + [f];
      AddAllVoices(s, now, front, t, k);
      var before := AddAll(s, now, front, None);
      var more := before.log + [Alert(now, f)];
      assert more[|before.log|] == Alert(now, f) && forall i :: 0 <= i < |before.log| ==> more[i] == before.log[i];
      if k in before.keys {
        var i :| 0 <= i < |before.log| && IsActive(before.log[i], t) && KeyOf(before.log[i].what) == k;
        assert more[i] == before.log[i];
      }
    }
  }

  lemma CollectedVoices(log: seq<Alert>, p: Poll, k: Key)
    ensures k in Collected(log, p).keys ==> Voiced(Collected(log, p).log, k, p.collectedAt)
  {
    var left := Cleared(log, p.pvActive, p.clearedAt);
    var active := Active(left, p.collectedAt);
    SelectAll(left, a => IsActive(a, p.collectedAt));
    if k in Collected(log, p).keys {
      var i :| 0 <= i < |active| && KeyOf(active[i].what) == k;
      assert active[i] in active;
      assert active[i] in left;
    }
  }

  /** After every call that runs the checks, each finding it let through is spoken for by an active
      alert of its category and level, in the bounded log too. */
  lemma EveryFindingIsActive(polls: seq<Poll>, p: Poll, f: Finding)
    requires Clocked(polls + [p]) && Due(Run(polls, Some(MAX_ALERTS)), p) && p.collectedAt - p.now < ACTIVE_SECONDS
    requires f in Findings(Streaks(Run(polls, Some(MAX_ALERTS)).streak, p.grid), p)
    ensures exists a :: a in Active(Run(polls + [p], Some(MAX_ALERTS)).log, p.collectedAt) && KeyOf(a.what) == KeyOf(f)
  {
    hide Findings, Streaks, Collected, Agree, Orderly;
    var all, t, k := polls + [p], p.collectedAt, KeyOf(f);
    assert all[..|polls|] == polls;
    LogsAgree(polls);
    var full := Run(polls, None);
    CollectedVoices(full.log, p, k);
    AddAllVoices(Collected(full.log, p), p.now, Findings(Streaks(full.streak, p.grid), p), t, k);
    var log := Run(all, None).log;
    assert Voiced(log, k, t);
    NothingActiveIsLost(all, t);
    SelectAll(log, a => IsActive(a, t));
    var i :| 0 <= i < |log| && IsActive(log[i], t) && KeyOf(log[i].what) == k;
    assert log[i] in log;
    assert log[i] in Active(log, t);
  }

  /** Clearing silences, at night, exactly the non-thermal alerts of five minutes and more. */
  lemma ClearingSpares(log: seq<Alert>, pvActive: bool, t: real, a: Alert)
    ensures a in Active(Cleared(log, pvActive, t), t) <==>
      a in Active(log, t) && (pvActive || Thermal(a.what.category) || t - a.at < IDLE_SECONDS)
  {
    SelectAll(log, x => Kept(x, t));
    SelectAll(log, x => IsActive(x, t));
    SelectAll(Cleared(log, pvActive, t), x => IsActive(x, t));
  }

  // ---------- Grid findings need two polls ----------

  /** The grid findings of the latest call that ran its checks. */
  function LatestGrid(polls: seq<Poll>, bound: Option<nat>): seq<Finding> {
    if polls == [] then []
    else if Due(Run(polls[..|polls| - 1], bound), polls[|polls| - 1]) then polls[|polls| - 1].grid
    else LatestGrid(polls[..|polls| - 1], bound)
  }

  ghost predicate Names(grid: seq<Finding>, k: GridKey) {
    exists g :: g in grid && GridKeyOf(g) == k
  }

  lemma {:induction false} StreakNamesLatest(polls: seq<Poll>, bound: Option<nat>, k: GridKey)
    ensures CountOf(Run(polls, bound).streak, k) > 0 <==> Names(LatestGrid(polls, bound), k)
  {
    hide Collected, Findings, AddAll;
    if polls != [] {
      var front, p := polls[..|polls| - 1], polls[|polls| - 1];
      StreakNamesLatest(front, bound, k);
      if Due(Run(front, bound), p) {
        StreaksName(Run(front, bound).streak, p.grid, k);
      }
    }
  }

  lemma StreaksName(streak: map<GridKey, nat>, grid: seq<Finding>, k: GridKey)
    ensures CountOf(Streaks(streak, grid), k) == if Names(grid, k) then CountOf(streak, k) + 1 else 0
  {
    assert k in Streaks(streak, grid) <==> Names(grid, k);
  }

  lemma {:induction false} ConfirmedCount(streak: map<GridKey, nat>, grid: seq<Finding>, f: Finding)
    ensures f in Confirmed(streak, grid) <==> f in grid && CountOf(streak, GridKeyOf(f)) >= CONFIRM_POLLS
  {
    if grid != [] {
      var n := |grid| - 1;
      ConfirmedCount(streak, grid[..n], f);
      assert grid == grid[..n] + [grid[n]];
    }
  }

  /** In every run a grid finding passes exactly when the call before it that ran the checks
      reported the same category and title: one bad sample never raises an alert. */
  lemma GridNeedsTwoPolls(polls: seq<Poll>, p: Poll, bound: Option<nat>, f: Finding)
    ensures f in Confirmed(Streaks(Run(polls, bound).streak, p.grid), p.grid)
       <==> f in p.grid && Names(LatestGrid(polls, bound), GridKeyOf(f))
  {
    var k := GridKeyOf(f);
    StreakNamesLatest(polls, bound, k);
    StreaksName(Run(polls, bound).streak, p.grid, k);
    ConfirmedCount(Streaks(Run(polls, bound).streak, p.grid), p.grid, f);
  }

  lemma NoStreaks(streak: map<GridKey, nat>)
    ensures Streaks(streak, []) == map[]
  {}

  lemma StreaksGrow(streak: map<GridKey, nat>, grid: seq<Finding>, i: nat)
    requires i < |grid|
    ensures Streaks(streak, grid[..i + 1])
         == Streaks(streak, grid[..i])[GridKeyOf(grid[i]) := CountOf(streak, GridKeyOf(grid[i])) + 1]
    ensures GridKeyOf(grid[i]) in Streaks(streak, grid)
  {
    assert grid[..i + 1] == grid[..i] + [grid[i]];
    assert grid[i] in grid;
  }

  // ---------- What is reported, active and shown ----------

  /** The k-th call runs its checks. */
  predicate Ran(polls: seq<Poll>, k: nat, bound: Option<nat>)
    requires k < |polls|
  {
    Due(Run(polls[..k], bound), polls[k])
  }

  lemma RanBefore(polls: seq<Poll>, k: nat, bound: Option<nat>)
    requires polls != [] && k < |polls| - 1
    ensures Ran(polls, k, bound) <==> Ran(polls[..|polls| - 1], k, bound)
  {
    hide Run, Due;
    assert polls[..|polls| - 1][..k] == polls[..k];
  }

  lemma LastCheckStep(polls: seq<Poll>, bound: Option<nat>)
    requires polls != []
    ensures
      var m := |polls| - 1;
      Run(polls, bound).lastCheck == if Ran(polls, m, bound) then polls[m].now else Run(polls[..m], bound).lastCheck
  {
    hide Collected, Findings, Streaks, AddAll;
  }

  lemma {:induction false} LastCheckIs(polls: seq<Poll>, bound: Option<nat>)
    requires Clocked(polls)
    ensures 0.0 <= Run(polls, bound).lastCheck <= End(polls)
    ensures forall k :: 0 <= k < |polls| && Ran(polls, k, bound) ==> polls[k].now <= Run(polls, bound).lastCheck
    ensures Run(polls, bound).lastCheck == 0.0
      || exists k :: 0 <= k < |polls| && Ran(polls, k, bound) && polls[k].now == Run(polls, bound).lastCheck
  {
    if polls != [] {
      hide Run, Ran;
      var m := |polls| - 1;
      var front := polls[..m];
      LastCheckIs(front, bound);
      LastCheckStep(polls, bound);
      forall k | 0 <= k < m ensures Ran(polls, k, bound) <==> Ran(front, k, bound) {
        RanBefore(polls, k, bound);
      }
    }
  }

  /** A call runs its checks exactly when five seconds have passed since every earlier one that did,
      and since the start of the clock. */
  lemma DueExactly(polls: seq<Poll>, p: Poll, bound: Option<nat>)
    requires Clocked(polls + [p])
    ensures Due(Run(polls, bound), p) <==>
      p.now >= 5.0 && forall k :: 0 <= k < |polls| && Ran(polls, k, bound) ==> p.now - polls[k].now >= 5.0
  {
    assert (polls + [p])[..|polls|] == polls;
    LastCheckIs(polls, bound);
    hide Run, Ran;
  }

  /** What a call lets through: every thermal finding, each grid finding that the call before it that
      ran the checks reported too, and those of the panels while they produce and the inverter is
      neither off nor on standby. */
  lemma LetThroughExactly(polls: seq<Poll>, p: Poll, bound: Option<nat>, f: Finding)
    ensures f in Findings(Streaks(Run(polls, bound).streak, p.grid), p) <==>
      || f in p.thermal
      || (f in p.grid && Names(LatestGrid(polls, bound), GridKeyOf(f)))
      || (f in p.pv && p.pvActive && !p.standby)
  {
    GridNeedsTwoPolls(polls, p, bound, f);
    hide Run, Streaks, Confirmed, Names, LatestGrid;
  }

  /** Of the findings, those reported: the first of each key that no active alert has. */
  ghost predicate FirstOfKey(findings: seq<Finding>, i: nat)
    requires i < |findings|
  {
    forall j :: 0 <= j < i ==> KeyOf(findings[j]) != KeyOf(findings[i])
  }

  /** Some finding of the list has the key. */
  ghost predicate Keyed(findings: seq<Finding>, k: Key) {
    exists i :: 0 <= i < |findings| && KeyOf(findings[i]) == k
  }

  lemma KeyedStep(findings: seq<Finding>, k: Key)
    requires findings != []
    ensures
      var m := |findings| - 1;
      Keyed(findings, k) <==> Keyed(findings[..m], k) || KeyOf(findings[m]) == k
  {
    var m := |findings| - 1;
    if i :| 0 <= i < m && KeyOf(findings[..m][i]) == k {
      assert findings[i] == findings[..m][i];
    }
    if i :| 0 <= i < m && KeyOf(findings[i]) == k {
      assert findings[..m][i] == findings[i];
    }
  }

  lemma {:induction false} AddAllKeys(s: Added, now: real, findings: seq<Finding>, bound: Option<nat>, k: Key)
    ensures k in AddAll(s, now, findings, bound).keys <==> k in s.keys || Keyed(findings, k)
  {
    if findings != [] {
      AddAllKeys(s, now, findings[..|findings| - 1], bound, k);
      KeyedStep(findings, k);
      hide Keyed, KeyOf, Bounded;
    }
  }

  /** The finding is the first of its key in the list. */
  ghost predicate Leads(findings: seq<Finding>, what: Finding) {
    exists i :: 0 <= i < |findings| && findings[i] == what && FirstOfKey(findings, i)
  }

  lemma LeadsStep(findings: seq<Finding>, what: Finding)
    requires findings != []
    ensures
      var m := |findings| - 1;
      Leads(findings, what) <==>
        Leads(findings[..m], what) || (findings[m] == what && !Keyed(findings[..m], KeyOf(what)))
  {
    var m := |findings| - 1;
    var front := findings[..m];
    assert forall i :: 0 <= i < m ==> front[i] == findings[i];
    assert FirstOfKey(findings, m) <==> !Keyed(front, KeyOf(findings[m]));
    forall i | 0 <= i < m ensures FirstOfKey(findings, i) <==> FirstOfKey(front, i) {}
    hide FirstOfKey, Keyed;
  }

  lemma {:induction false} AddAllReports(s: Added, now: real, findings: seq<Finding>, bound: Option<nat>, a: Alert)
    requires s.reported == []
    ensures a in AddAll(s, now, findings, bound).reported <==>
      a.at == now && Leads(findings, a.what) && KeyOf(a.what) !in s.keys
  {
    if findings != [] {
      var m := |findings| - 1;
      AddAllReports(s, now, findings[..m], bound, a);
      AddAllKeys(s, now, findings[..m], bound, KeyOf(findings[m]));
      LeadsStep(findings, a.what);
      hide Leads, Keyed, KeyOf, Bounded;
    }
  }

  /** A call reports an alert exactly if it runs its checks, lets the finding through, it is the first
      of its category and level in this call, and no active alert has both. */
  lemma ReportedExactly(polls: seq<Poll>, p: Poll, bound: Option<nat>, a: Alert)
    ensures
      var s := Run(polls, bound);
      var found := Findings(Streaks(s.streak, p.grid), p);
      a in Analyzed(s, p, bound).1 <==>
        && Due(s, p) && a.at == p.now
        && Leads(found, a.what)
        && forall b :: b in Active(Cleared(s.log, p.pvActive, p.clearedAt), p.collectedAt) ==>
             KeyOf(b.what) != KeyOf(a.what)
  {
    hide Run, Findings, Streaks, AddAll, Leads, Active, Cleared;
    var s := Run(polls, bound);
    var found := Findings(Streaks(s.streak, p.grid), p);
    AddAllReports(Collected(s.log, p), p.now, found, bound, a);
    var active := Active(Cleared(s.log, p.pvActive, p.clearedAt), p.collectedAt);
    KeysAre(active, KeyOf(a.what));
  }

  lemma KeysAre(log: seq<Alert>, k: Key)
    ensures k in Keys(log) <==> exists b :: b in log && KeyOf(b.what) == k
  {
    if b :| b in log && KeyOf(b.what) == k {
      var i :| 0 <= i < |log| && log[i] == b;
    }
    if i :| 0 <= i < |log| && KeyOf(log[i].what) == k {
      assert log[i] in log;
    }
  }

  /** The k-th call reported the alert, and no clearing since has silenced it. */
  ghost predicate Stands(polls: seq<Poll>, k: nat, a: Alert)
    requires k < |polls|
  {
    && a in Analyzed(Run(polls[..k], None), polls[k], None).1
    && forall j :: k < j < |polls| && Ran(polls, j, None) && !polls[j].pvActive ==>
         polls[j].clearedAt - a.at
           < if a.what.category in {BatteryThermal, BatteryVoltageAnomaly, ControllerThermal} then 3600.0 else 300.0
  }

  lemma {:induction false} AddAllLogs(s: Added, now: real, findings: seq<Finding>, a: Alert)
    requires s.reported == []
    ensures
      var added := AddAll(s, now, findings, None);
      a in added.log <==> a in s.log || a in added.reported
  {
    if findings != [] {
      AddAllLogs(s, now, findings[..|findings| - 1], a);
    }
  }

  lemma StandsOn(polls: seq<Poll>, k: nat, a: Alert)
    requires polls != [] && k < |polls| - 1
    ensures
      var m := |polls| - 1;
      Stands(polls, k, a) <==>
        Stands(polls[..m], k, a) && (Ran(polls, m, None) ==> polls[m].pvActive || Kept(a, polls[m].clearedAt))
  {
    var m := |polls| - 1;
    var front := polls[..m];
    assert front[..k] == polls[..k];
    hide Run, Analyzed;
    forall j | 0 <= j < m ensures Ran(polls, j, None) <==> Ran(front, j, None) {
      assert front[..j] == polls[..j];
    }
    hide Due;
  }

  lemma StandsNow(polls: seq<Poll>, a: Alert)
    requires polls != []
    ensures
      var m := |polls| - 1;
      Stands(polls, m, a) <==> a in Analyzed(Run(polls[..m], None), polls[m], None).1
  {}

  lemma LogStep(s: State, p: Poll, a: Alert)
    ensures
      var (t, reported) := Analyzed(s, p, None);
      a in t.log <==> a in reported || (a in s.log && (Due(s, p) ==> p.pvActive || Kept(a, p.clearedAt)))
  {
    hide Findings, Streaks, AddAll;
    if Due(s, p) {
      AddAllLogs(Collected(s.log, p), p.now, Findings(Streaks(s.streak, p.grid), p), a);
      SelectAll(s.log, x => Kept(x, p.clearedAt));
    }
  }

  lemma {:induction false} LogHoldsStanding(polls: seq<Poll>, a: Alert)
    ensures a in Run(polls, None).log <==> exists k :: 0 <= k < |polls| && Stands(polls, k, a)
  {
    if polls != [] {
      var m := |polls| - 1;
      LogHoldsStanding(polls[..m], a);
      LogStep(Run(polls[..m], None), polls[m], a);
      StandsNow(polls, a);
      forall k | 0 <= k < m
        ensures Stands(polls, k, a) <==>
          Stands(polls[..m], k, a) && (Ran(polls, m, None) ==> polls[m].pvActive || Kept(a, polls[m].clearedAt))
      {
        StandsOn(polls, k, a);
      }
      hide Stands, Analyzed, Kept, Due;
    }
  }

  /** Over every run, what the monitor shows at any later time, 500-entry bound and all: exactly the
      alerts some call has reported, that are less than an hour old and that no clearing since, while
      the panels did not produce, found older than five minutes, or an hour for the thermal ones. */
  lemma ActiveExactly(polls: seq<Poll>, t: real, a: Alert)
    requires Clocked(polls) && End(polls) <= t
    ensures a in Active(Run(polls, Some(MAX_ALERTS)).log, t) <==>
      t - a.at < 3600.0 && exists k :: 0 <= k < |polls| && Stands(polls, k, a)
  {
    NothingActiveIsLost(polls, t);
    LogHoldsStanding(polls, a);
    SelectAll(Run(polls, None).log, x => IsActive(x, t));
    hide Run, Stands;
  }

  /** The risk shown is the highest level among the active alerts, and safe when there are none. */
  lemma RiskIsHighest(active: seq<Alert>)
    ensures active == [] ==> Risk(active) == Safe
    ensures forall i :: 0 <= i < |active| ==> LevelIndex(active[i].what.level) <= LevelIndex(Risk(active))
    ensures active != [] ==> exists i :: 0 <= i < |active| && active[i].what.level == Risk(active)
  {
    hide LevelIndex;
    RanksRise();
    forall i | 0 <= i < |active| ensures LevelIndex(active[i].what.level) <= LevelIndex(Risk(active)) {
      assert Reports(active, active[i].what.level);
    }
    if active != [] {
      assert Reports(active, active[0].what.level);
    }
  }

  lemma RanksRise()
    ensures LevelIndex(Safe) < LevelIndex(Monitor) < LevelIndex(Elevated) < LevelIndex(High) < LevelIndex(Emergency)
  {}

  // ---------- The monitor ----------

  class FireSafetyMonitor {
    var alerts: seq<Alert>
    var lastCheck: real
    var gridAlertStreak: map<GridKey, nat>

    constructor ()
      ensures Now() == INITIAL
    {
      alerts, lastCheck, gridAlertStreak := [], 0.0, map[];
    }

    function Now(): State
      reads this
    {
      State(alerts, lastCheck, gridAlertStreak)
    }

    method ActiveAlerts(t: real) returns (active: seq<Alert>)
      ensures active == Active(alerts, t)
    {
      active := [];
      for i := 0 to |alerts|
        invariant active == Active(alerts[..i], t)
      {
        assert alerts[..i + 1][..i] == alerts[..i];
        if t - alerts[i].at < ACTIVE_SECONDS { active := active + [alerts[i]]; }
      }
      assert alerts[..|alerts|] == alerts;
    }

    method CurrentRiskLevel(t: real) returns (level: Level)
      ensures level == Risk(Active(alerts, t))
    {
      var active := ActiveAlerts(t);
      if |active| == 0 { return Safe; }
      var levels := seq(|active|, i requires 0 <= i < |active| => active[i].what.level);
      assert forall i :: 0 <= i < |active| ==> levels[i] == active[i].what.level && levels[i] in levels;
      if Emergency in levels { return Emergency; }
      if High in levels { return High; }
      if Elevated in levels { return Elevated; }
      if Monitor in levels { return Monitor; }
      return Safe;
    }

    method ClearStaleAlerts(pvActive: bool, t: real)
      modifies this`alerts
      ensures alerts == Cleared(old(alerts), pvActive, t)
    {
      if pvActive { return; }
      var kept: seq<Alert> := [];
      for i := 0 to |alerts|
        invariant kept == Cleared(alerts[..i], false, t)
      {
        assert alerts[..i + 1][..i] == alerts[..i];
        var age := t - alerts[i].at;
        if Thermal(alerts[i].what.category) {
          if age < ACTIVE_SECONDS { kept := kept + [alerts[i]]; }
        } else {
          if age < IDLE_SECONDS { kept := kept + [alerts[i]]; }
        }
      }
      assert alerts[..|alerts|] == alerts;
      alerts := kept;
    }

    method ConfirmGridAlerts(candidates: seq<Finding>) returns (confirmed: seq<Finding>)
      modifies this`gridAlertStreak
      ensures gridAlertStreak == Streaks(old(gridAlertStreak), candidates)
      ensures confirmed == Confirmed(gridAlertStreak, candidates)
    {
      hide Streaks;
      var streak: map<GridKey, nat> := map[];
      assert streak == Streaks(gridAlertStreak, candidates[..0]) by { NoStreaks(gridAlertStreak); }
      for i := 0 to |candidates|
        invariant streak == Streaks(gridAlertStreak, candidates[..i])
        invariant gridAlertStreak == old(gridAlertStreak)
      {
        StreaksGrow(gridAlertStreak, candidates, i);
        var k := GridKeyOf(candidates[i]);
        streak := streak[k := CountOf(gridAlertStreak, k) + 1];
      }
      assert candidates[..|candidates|] == candidates;
      assert streak == Streaks(gridAlertStreak, candidates);
      confirmed := [];
      for i := 0 to |candidates|
        invariant confirmed == Confirmed(streak, candidates[..i])
        invariant gridAlertStreak == old(gridAlertStreak)
      {
        assert candidates[..i + 1][..i] == candidates[..i];
        StreaksGrow(gridAlertStreak, candidates, i);
        if streak[GridKeyOf(candidates[i])] >= CONFIRM_POLLS { confirmed := confirmed + [candidates[i]]; }
      }
      assert candidates[..|candidates|] == candidates;
      gridAlertStreak := streak;
    }

    /** The loop that deduplicates: a finding is logged unless an active alert says the same. */
    method LogFindings(findings: seq<Finding>, now: real, activeKeys: set<Key>) returns (reported: seq<Alert>)
      modifies this`alerts
      ensures
        var added := AddAll(Added(old(alerts), activeKeys, []), now, findings, Some(MAX_ALERTS));
        alerts == added.log && reported == added.reported
    {
      var keys := activeKeys;
      reported := [];
      for i := 0 to |findings|
        invariant Added(alerts, keys, reported)
               == AddAll(Added(old(alerts), activeKeys, []), now, findings[..i], Some(MAX_ALERTS))
      {
        assert findings[..i + 1][..i] == findings[..i];
        var k := KeyOf(findings[i]);
        if k in keys { continue; }
        keys := keys + {k};
        alerts := alerts + [Alert(now, findings[i])];
        if |alerts| > MAX_ALERTS { alerts := alerts[|alerts| - MAX_ALERTS..]; }
        reported := reported + [Alert(now, findings[i])];
      }
      assert findings[..|findings|] == findings;
    }

    method Analyze(p: Poll) returns (reported: seq<Alert>)
      modifies this
      ensures (Now(), reported) == Analyzed(old(Now()), p, Some(MAX_ALERTS))
    {
      if p.now - lastCheck < CHECK_INTERVAL { return []; }
      lastCheck := p.now;
      ClearStaleAlerts(p.pvActive, p.clearedAt);
      var found := p.thermal;
      var confirmed := ConfirmGridAlerts(p.grid);
      found := found + confirmed;
      if p.pvActive && !p.standby { found := found + p.pv; }
      var active := ActiveAlerts(p.collectedAt);
      var keys := set i | 0 <= i < |active| :: KeyOf(active[i].what);
      assert found == Findings(gridAlertStreak, p);
      reported := LogFindings(found, p.now, keys);
    }
  }
}
