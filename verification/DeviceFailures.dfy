/** The device-failure filter over whole runs of polls (modbus_coordinator.py): an implausible zero
    and the Server Device Failure answers that came during its poll. */
module DeviceFailures {
  import opened Registers
  import opened QualityFilter
  import opened PollCoordinator
  import opened ZeroFilters

  // ---------- what happened, told by the events ----------

  /** The k-th event starts a poll. */
  predicate Begins(cfg: Config, run: seq<Event>, k: nat)
    requires k < |run|
  {
    run[k].StartPoll? && After(cfg, run[..k]).phase.Idle? && !After(cfg, run[..k]).closing
  }

  /** The inverter has answered Server Device Failure since the latest poll began. */
  ghost predicate FailedSince(cfg: Config, run: seq<Event>) {
    exists i :: 0 <= i < |run| && run[i].DeviceFailure? && forall k :: i < k < |run| ==> !Begins(cfg, run, k)
  }

  /** The k-th event ends the reading of a poll and publishes what was held back. */
  predicate Publishes(cfg: Config, run: seq<Event>, k: nat)
    requires k < |run|
  {
    run[k].Publish? && After(cfg, run[..k]).phase.Info?
  }

  /** The polls published so far: what each reported, and whether the inverter failed during it. */
  ghost function Filters(cfg: Config, run: seq<Event>): seq<Filtered> {
    if run == [] then []
    else
      var m := |run| - 1;
      var front := run[..m];
      Filters(cfg, front)
        + if Publishes(cfg, run, m) then [Filtered(After(cfg, front).phase.job.data, FailedSince(cfg, front))] else []
  }

  /** Two failing polls of the streak of n that still lasts held a zero of it. */
  ghost predicate TwoHeld(polls: seq<Filtered>, n: string) {
    exists a, b :: 0 <= a < b < |polls| && TwoFaulty(polls, a, b, n)
  }

  lemma {:induction false} PrefixBegins(cfg: Config, run: seq<Event>, k: nat)
    requires run != [] && k < |run| - 1
    ensures Begins(cfg, run, k) <==> Begins(cfg, run[..|run| - 1], k)
  {
    assert run[..|run| - 1][..k] == run[..k];
  }

  /** One event more. */
  lemma FailedStep(cfg: Config, run: seq<Event>)
    requires run != []
    ensures
      var m := |run| - 1;
      FailedSince(cfg, run) <==> run[m].DeviceFailure? || (FailedSince(cfg, run[..m]) && !Begins(cfg, run, m))
  {
    var m := |run| - 1;
    var front := run[..m];
    hide After;
    forall k | 0 <= k < m ensures Begins(cfg, run, k) <==> Begins(cfg, front, k) {
      PrefixBegins(cfg, run, k);
    }
    hide Begins;
    if run[m].DeviceFailure? {
      assert FailedSince(cfg, run);
    }
    if FailedSince(cfg, front) && !Begins(cfg, run, m) {
      var i :| 0 <= i < m && front[i].DeviceFailure? && forall k :: i < k < m ==> !Begins(cfg, front, k);
      assert run[i].DeviceFailure?;
      assert FailedSince(cfg, run);
    }
    if FailedSince(cfg, run) && !run[m].DeviceFailure? {
      var i :| 0 <= i < |run| && run[i].DeviceFailure? && forall k :: i < k < |run| ==> !Begins(cfg, run, k);
      assert i < m && front[i].DeviceFailure? && !Begins(cfg, run, m);
      assert FailedSince(cfg, front);
    }
  }

  // ---------- steps that leave most of the state ----------

  /** The counts, the streaks and the slow values stay. */
  predicate Leaves(w: World, v: World) {
    v.failures == w.failures && v.streak == w.streak && v.lastSlow == w.lastSlow
  }

  lemma SkipLeaves(w: World)
    ensures var v := SkipNext(w); Leaves(w, v) && v.observations == w.observations
  {
    if w.phase.Fast? {
    } else if w.phase.Slow? {
    }
  }

  lemma FailedLeaves(w: World, cfg: Config)
    ensures
      var v := FailedBatch(w, cfg);
      && Leaves(w, v)
      && forall n :: n in v.observations ==> n in w.observations && v.observations[n] == w.observations[n]
  {
    hide Names;
    if w.phase.Fast? {
    } else if w.phase.Slow? {
    }
  }

  lemma ReadOneLeaves(w: World, reg: Register, outcome: Outcome)
    ensures var v := ReadOne(w, reg, outcome).0; Leaves(w, v) && v.observations == w.observations
  {
    hide ClientRead;
    ClientReadLeaves(w, reg.address, outcome.kind);
  }

  lemma ClientReadLeaves(w: World, a: nat, kind: Kind)
    ensures var v := ClientRead(w, a, kind); Leaves(w, v) && v.observations == w.observations
  {}

  lemma BeginLeaves(w: World, cfg: Config)
    ensures
      var v := BeginPoll(w, cfg);
      && v.streak == w.streak && v.failures == w.failures
      && (v.observations == w.observations || v.observations == map[])
  {}

  // ---------- the poll's own count of failures ----------

  predicate Running(p: Phase) { p.Fast? || p.Slow? || p.Info? }

  /** The count the poll began with tells whether the inverter failed since. */
  predicate CountTells(w: World, failed: bool) {
    Running(w.phase) ==>
      w.failures >= w.phase.job.failuresBefore && (w.failures > w.phase.job.failuresBefore <==> failed)
  }

  /** No failure is counted, and a poll that runs afterwards ran before, with the same count. */
  predicate SameCount(w: World, v: World) {
    && v.failures == w.failures
    && (Running(v.phase) ==> Running(w.phase) && v.phase.job.failuresBefore == w.phase.job.failuresBefore)
  }

  lemma FinishCount(w: World, cfg: Config, suppressed: set<nat>)
    ensures w.phase.Fast? ==> SameCount(w, FinishFast(w, cfg, w.phase.job, suppressed))
    ensures w.phase.Slow? ==> SameCount(w, FinishSlow(w, cfg, w.phase.job))
  {
    hide Staged, Unretained, Values, AllFailed, Names, Observe, ObserveBatch;
    if w.phase.Fast? {
      FastCount(w, cfg, w.phase.job, suppressed);
    } else if w.phase.Slow? {
      BatchLeaves(w, cfg, cfg.slow, w.gen != w.phase.job.genBefore, w.phase.job.result);
    }
  }

  lemma FastCount(w: World, cfg: Config, job: Job, suppressed: set<nat>)
    requires w.phase.Fast? && w.phase.job == job
    ensures SameCount(w, FinishFast(w, cfg, job, suppressed))
  {
    hide Staged, Unretained, Values, AllFailed, Names, Observe, ObserveBatch;
    var relinked := w.gen != job.genBefore;
    var u := ObserveBatch(w, cfg, cfg.fast, relinked, job.result)
             .(lastSlow := if relinked then map[] else w.lastSlow,
               slowTick := if relinked then SLOW_TICKS - 1 else w.slowTick);
    BatchLeaves(w, cfg, cfg.fast, relinked, job.result);
    var staged := Staged(w, cfg, job.result);
    ObserveLeaves(u, staged.Keys, staged);
  }

  lemma PublishCount(w: World, cfg: Config, job: Job)
    ensures SameCount(w, PublishStaged(w, cfg, job))
  {
    hide DroppedZeros, StreakAfter, Observable, TagOf;
  }

  lemma TouchCount(w: World, a: nat, kind: Kind)
    ensures SameCount(w, ClientRead(w, a, kind).(phase := TouchPhase(w.phase, a, Foreign(kind, w.gen))))
  {
    hide Touch;
  }

  lemma ReadCount(w: World, job: Job, rest: seq<Register>, reg: Register, outcome: Outcome)
    requires Running(w.phase) && w.phase.job == job
    ensures
      var (v, item) := ReadOne(w, reg, outcome);
      && SameCount(w, v.(phase := Fast(AddItem(job, item), rest)))
      && SameCount(w, v.(phase := Slow(AddItem(job, item), rest)))
  {
    ReadMarks(w, reg, outcome);
    hide ReadOne;
  }

  lemma SkipCount(w: World)
    ensures SameCount(w, SkipNext(w))
  {
    SkipLeaves(w);
  }

  lemma FailCount(w: World, cfg: Config)
    ensures SameCount(w, FailedBatch(w, cfg))
  {
    hide Names;
    FailedLeaves(w, cfg);
  }

  lemma SurroundingsCount(w: World, ev: Event)
    requires !ev.DeviceFailure?
    ensures SameCount(w, Surroundings(w, ev))
  {}

  /** The events that neither start a poll nor report a failure. */
  lemma OtherCount(w: World, cfg: Config, ev: Event)
    requires !ev.StartPoll? && !ev.DeviceFailure?
    ensures SameCount(w, Step(w, cfg, ev))
  {
    hide SameCount, FinishFast, FinishSlow, PublishStaged, ClientRead, TouchPhase, ReadOne, AddItem, SkipNext;
    hide FailedBatch, Surroundings, Overlapping, Forget;
    SameIsSame(w);
    match ev
    case ForeignRead(a, kind) => TouchCount(w, a, kind);
    case WriteCommand(name) => ForgetCount(w, {name});
    case RawWrite(address, quantity) => ForgetCount(w, Overlapping(w, address, quantity));
    case ReadNext(outcome) =>
      if (w.phase.Fast? || w.phase.Slow?) && w.phase.rest != [] {
        ReadCount(w, w.phase.job, w.phase.rest[1..], w.phase.rest[0], outcome);
      }
    case FinishBatch(suppressed) => FinishCount(w, cfg, suppressed);
    case Publish => if w.phase.Info? { PublishCount(w, cfg, w.phase.job); }
    case FailNext => SkipCount(w);
    case FailBatch => FailCount(w, cfg);
    case _ => SurroundingsCount(w, ev);
  }

  lemma SameIsSame(w: World)
    ensures SameCount(w, w)
  {}

  lemma ForgetCount(w: World, names: set<string>)
    ensures SameCount(w, Forget(w, names))
  {}

  lemma CountStep(w: World, cfg: Config, ev: Event, failed: bool)
    requires CountTells(w, failed)
    ensures CountTells(Step(w, cfg, ev),
                       ev.DeviceFailure? || (failed && !(ev.StartPoll? && w.phase.Idle? && !w.closing)))
  {
    if !ev.StartPoll? && !ev.DeviceFailure? {
      OtherCount(w, cfg, ev);
      hide Step;
    } else {
      hide Observable, FinishFast, FinishSlow, PublishStaged, TouchPhase, ReadOne, FailedBatch;
    }
  }

  lemma {:induction false} CountTellsFailures(cfg: Config, run: seq<Event>)
    ensures CountTells(After(cfg, run), FailedSince(cfg, run))
  {
    if run != [] {
      var m := |run| - 1;
      CountTellsFailures(cfg, run[..m]);
      FailedStep(cfg, run);
      hide Step, CountTells;
      CountStep(After(cfg, run[..m]), cfg, run[m], FailedSince(cfg, run[..m]));
    }
  }

  // ---------- where the items of a poll come from ----------

  ghost predicate IsFrom(regs: seq<Register>, items: map<string, Item>) {
    forall n :: n in items ==> items[n].reg in regs && items[n].reg.name == n
  }

  ghost predicate AllIn(rest: seq<Register>, regs: seq<Register>) {
    forall reg :: reg in rest ==> reg in regs
  }

  /** What is held back is an implausible zero, and the filter is shown it. */
  ghost predicate Judgeable(cfg: Config, job: Job) {
    forall n :: n in job.staged ==>
      WaitingZero(cfg, n, job.staged[n].v) && n in job.data && job.data[n] == job.staged[n].v
  }

  ghost predicate PhaseLaid(p: Phase, cfg: Config) {
    match p
    case Fast(job, rest) => job.staged == map[] && IsFrom(cfg.fast, job.result) && AllIn(rest, cfg.fast)
    case Slow(job, rest) =>
      IsFrom(cfg.slow, job.result) && AllIn(rest, cfg.slow) && IsFrom(cfg.fast, job.staged) && Judgeable(cfg, job)
    case Info(job) => Judgeable(cfg, job)
    case _ => true
  }

  ghost predicate Laid(w: World, cfg: Config) {
    PhaseLaid(w.phase, cfg) && w.lastSlow.Keys <= Names(cfg.slow)
  }

  lemma TouchLaid(p: Phase, cfg: Config, a: nat, f: Foreign)
    requires PhaseLaid(p, cfg)
    ensures PhaseLaid(TouchPhase(p, a, f), cfg)
  {
    hide IsZero;
    if p.Fast? {
      assert Touch(map[], a, f) == map[];
    }
  }

  lemma ReadLaid(w: World, cfg: Config, outcome: Outcome)
    requires Laid(w, cfg)
    ensures Laid(Step(w, cfg, ReadNext(outcome)), cfg)
  {
    hide IsZero, FinishFast, FinishSlow, PublishStaged, BeginPoll, ReadOne, Names;
    if (w.phase.Fast? || w.phase.Slow?) && w.phase.rest != [] {
      assert w.phase.rest[0] in w.phase.rest && forall reg :: reg in w.phase.rest[1..] ==> reg in w.phase.rest;
      ReadLeaves(w, w.phase.rest[0], outcome);
    }
  }

  lemma ReadLeaves(w: World, reg: Register, outcome: Outcome)
    ensures
      var (v, item) := ReadOne(w, reg, outcome);
      v.lastSlow == w.lastSlow && (item.Some? ==> item.value.reg == reg)
  {}

  lemma StagedLaid(w: World, cfg: Config, result: map<string, Item>, regs: seq<Register>)
    requires IsFrom(regs, result)
    ensures IsFrom(regs, Staged(w, cfg, result)) && IsFrom(regs, Unretained(w, result))
    ensures forall n :: n in Staged(w, cfg, result) ==>
      && n in result && Staged(w, cfg, result)[n] == result[n] && WaitingZero(cfg, n, result[n].v)
      && n in Unretained(w, result) && Unretained(w, result)[n] == result[n]
  {
    hide IsZero;
  }

  lemma FastIsNotSlow(cfg: Config, items: map<string, Item>, others: map<string, Item>)
    requires Distinct(cfg.fast + cfg.slow) && IsFrom(cfg.fast, items)
    ensures forall n :: n in items ==> n !in Names(cfg.slow)
    ensures IsFrom(cfg.slow, others) ==> items.Keys !! others.Keys
  {
    var both := cfg.fast + cfg.slow;
    forall n, reg | n in items && reg in cfg.slow ensures reg.name != n {
      var i :| 0 <= i < |cfg.fast| && cfg.fast[i] == items[n].reg;
      var j :| 0 <= j < |cfg.slow| && cfg.slow[j] == reg;
      assert both[i] == items[n].reg && both[|cfg.fast| + j] == reg;
    }
  }

  /** The job a finished fast batch goes on with. */
  function FastNext(w: World, cfg: Config, job: Job): Job {
    job.(result := map[], staged := Staged(w, cfg, job.result),
         data := Values(Unretained(w, job.result)) + (if w.gen != job.genBefore then map[] else w.lastSlow))
  }

  lemma FastEnds(w: World, cfg: Config, job: Job, suppressed: set<nat>)
    ensures
      var v := FinishFast(w, cfg, job, suppressed);
      && (v.phase == Idle || v.phase == Slow(FastNext(w, cfg, job), cfg.slow) || v.phase == Info(FastNext(w, cfg, job)))
      && v.lastSlow == if w.gen != job.genBefore then map[] else w.lastSlow
  {
    hide FinishFast, Staged, Unretained, Values;
    FastShape(w, cfg, job, suppressed);
  }

  lemma FastNextLaid(w: World, cfg: Config, job: Job)
    requires IsFrom(cfg.fast, job.result) && w.lastSlow.Keys <= Names(cfg.slow) && Distinct(cfg.fast + cfg.slow)
    ensures Judgeable(cfg, FastNext(w, cfg, job)) && IsFrom(cfg.fast, FastNext(w, cfg, job).staged)
  {
    var staged, items := Staged(w, cfg, job.result), Unretained(w, job.result);
    StagedLaid(w, cfg, job.result, cfg.fast);
    FastIsNotSlow(cfg, staged, map[]);
    hide Staged, Unretained, WaitingZero, Distinct, Names;
    assert forall n :: n in staged ==> n in Values(items) && Values(items)[n] == staged[n].v;
  }

  lemma FinishFastLaid(w: World, cfg: Config, suppressed: set<nat>)
    requires Laid(w, cfg) && Distinct(cfg.fast + cfg.slow) && w.phase.Fast?
    ensures Laid(FinishFast(w, cfg, w.phase.job, suppressed), cfg)
  {
    hide FastNext, FinishFast, Names, Judgeable, Distinct;
    FastEnds(w, cfg, w.phase.job, suppressed);
    FastNextLaid(w, cfg, w.phase.job);
    assert FastNext(w, cfg, w.phase.job).result == map[] by { NextIsUnread(w, cfg, w.phase.job); }
    assert IsFrom(cfg.slow, map[]) && AllIn(cfg.slow, cfg.slow);
  }

  lemma NextIsUnread(w: World, cfg: Config, job: Job)
    ensures FastNext(w, cfg, job).result == map[]
  {}

  lemma SlowEnds(w: World, cfg: Config, job: Job)
    ensures
      var v, items := FinishSlow(w, cfg, job), Unretained(w, job.result);
      var relinked := w.gen != job.genBefore;
      && v.phase.Info? && v.lastSlow == Values(items)
      && v.phase.job.staged == (if relinked then map[] else job.staged) + Staged(w, cfg, job.result)
      && v.phase.job.data == (if relinked then job.data - Names(cfg.slow) else job.data) + Values(items)
  {
    hide Staged, Unretained, Values, ObserveBatch, Names;
  }

  lemma FinishSlowLaid(w: World, cfg: Config)
    requires Laid(w, cfg) && Distinct(cfg.fast + cfg.slow) && w.phase.Slow?
    ensures Laid(FinishSlow(w, cfg, w.phase.job), cfg)
  {
    hide Staged, Unretained, WaitingZero, Distinct, FinishSlow, Names, Values;
    var job := w.phase.job;
    var items, more := Unretained(w, job.result), Staged(w, cfg, job.result);
    StagedLaid(w, cfg, job.result, cfg.slow);
    FastIsNotSlow(cfg, job.staged, items);
    SlowEnds(w, cfg, job);
    SlowValues(cfg, items);
  }

  lemma SlowValues(cfg: Config, items: map<string, Item>)
    requires IsFrom(cfg.slow, items)
    ensures Values(items).Keys == items.Keys && Values(items).Keys <= Names(cfg.slow)
    ensures forall n :: n in items ==> Values(items)[n] == items[n].v
  {
    forall n | n in Values(items) ensures n in Names(cfg.slow) {
      assert items[n].reg in cfg.slow;
    }
  }

  lemma ForeignLaid(w: World, cfg: Config, a: nat, kind: Kind)
    requires Laid(w, cfg)
    ensures Laid(Step(w, cfg, ForeignRead(a, kind)), cfg)
  {
    hide PhaseLaid, TouchPhase, Names, FinishFast, FinishSlow, PublishStaged, BeginPoll, ReadOne;
    TouchLaid(w.phase, cfg, a, Foreign(kind, w.gen));
  }

  lemma PublishLaid(w: World, cfg: Config)
    requires Laid(w, cfg)
    ensures Laid(Step(w, cfg, Publish), cfg)
  {
    hide FinishFast, FinishSlow, BeginPoll, ReadOne, Names, PublishStaged, IsFrom, Judgeable;
    if w.phase.Info? {
      ObserveLeavesAll(w, cfg, w.phase.job);
    }
  }

  lemma QuietLaid(w: World, v: World, cfg: Config)
    requires Laid(w, cfg) && v.lastSlow == w.lastSlow && (v.phase == w.phase || v.phase.Idle?)
    ensures Laid(v, cfg)
  {
    hide Names, Judgeable, IsFrom;
  }

  lemma OtherLaid(w: World, cfg: Config, ev: Event)
    requires Laid(w, cfg) && !ev.FinishBatch? && !ev.ReadNext?
    ensures Laid(Step(w, cfg, ev), cfg)
  {
    hide Laid, FinishFast, FinishSlow, ReadOne, Overlapping, SkipNext, FailedBatch, Surroundings, PublishStaged;
    hide BeginPoll, TouchPhase;
    match ev
    case ForeignRead(a, kind) => ForeignLaid(w, cfg, a, kind);
    case StartPoll => StartLaid(w, cfg);
    case Publish => PublishLaid(w, cfg);
    case FailNext => SkipLaid(w, cfg);
    case FailBatch => FailLaid(w, cfg);
    case WriteCommand(name) => QuietLaid(w, Forget(w, {name}), cfg);
    case RawWrite(address, quantity) => QuietLaid(w, Forget(w, Overlapping(w, address, quantity)), cfg);
    case _ =>
      SurroundingsLeave(w, ev);
      QuietLaid(w, Surroundings(w, ev), cfg);
  }

  lemma ObserveLeavesAll(w: World, cfg: Config, job: Job)
    ensures PublishStaged(w, cfg, job).phase.Reporting? && PublishStaged(w, cfg, job).lastSlow == w.lastSlow
  {
    hide DroppedZeros, StreakAfter, Observable, TagOf;
  }

  lemma StartLaid(w: World, cfg: Config)
    requires Laid(w, cfg)
    ensures Laid(Step(w, cfg, StartPoll), cfg)
  {
    hide Judgeable, FinishFast, FinishSlow, PublishStaged, ClientRead;
    assert IsFrom(cfg.fast, map[]) && AllIn(cfg.fast, cfg.fast);
  }

  lemma SkipLaid(w: World, cfg: Config)
    requires Laid(w, cfg)
    ensures Laid(SkipNext(w), cfg)
  {
    hide Judgeable, IsFrom, Names;
    if (w.phase.Fast? || w.phase.Slow?) && w.phase.rest != [] {
      assert forall reg :: reg in w.phase.rest[1..] ==> reg in w.phase.rest;
    }
  }

  lemma FailLaid(w: World, cfg: Config)
    requires Laid(w, cfg)
    ensures Laid(FailedBatch(w, cfg), cfg)
  {
    hide IsFrom, Names, IsZero;
  }

  lemma {:induction false} EveryRunIsLaid(cfg: Config, run: seq<Event>)
    requires Distinct(cfg.fast + cfg.slow)
    ensures Laid(After(cfg, run), cfg)
  {
    if run != [] {
      var front, ev := run[..|run| - 1], run[|run| - 1];
      EveryRunIsLaid(cfg, front);
      var w := After(cfg, front);
      hide Laid, FinishFast, FinishSlow, Distinct;
      match ev
      case ReadNext(outcome) => ReadLaid(w, cfg, outcome);
      case FinishBatch(suppressed) =>
        if w.phase.Fast? && w.phase.rest == [] {
          FinishFastLaid(w, cfg, suppressed);
        } else if w.phase.Slow? && w.phase.rest == [] {
          FinishSlowLaid(w, cfg);
        }
      case _ => OtherLaid(w, cfg, ev);
    }
  }

  // ---------- the streaks ----------

  lemma StreakStep(w: World, cfg: Config, ev: Event)
    ensures
      Step(w, cfg, ev).streak
        == if ev.Publish? && w.phase.Info?
           then StreakAfter(cfg, w.phase.job.data, w.streak, w.failures > w.phase.job.failuresBefore)
           else w.streak
  {
    hide FinishFast, FinishSlow, ReadOne, Overlapping, SkipNext, FailedBatch, Surroundings, PublishStaged, BeginPoll;
    hide TouchPhase, StreakAfter, ClientRead;
    match ev
    case ForeignRead(a, kind) => ClientReadLeaves(w, a, kind);
    case StartPoll => BeginLeaves(w, cfg);
    case ReadNext(outcome) =>
      if (w.phase.Fast? || w.phase.Slow?) && w.phase.rest != [] {
        ReadOneLeaves(w, w.phase.rest[0], outcome);
      }
    case FinishBatch(suppressed) => FinishStreak(w, cfg, suppressed);
    case Publish => if w.phase.Info? { PublishStreak(w, cfg, w.phase.job); }
    case FailNext => SkipLeaves(w);
    case FailBatch => FailedLeaves(w, cfg);
    case WriteCommand(_) =>
    case RawWrite(_, _) =>
    case _ => SurroundingsLeave(w, ev);
  }

  lemma PublishStreak(w: World, cfg: Config, job: Job)
    ensures PublishStaged(w, cfg, job).streak
         == StreakAfter(cfg, job.data, w.streak, w.failures > job.failuresBefore)
  {
    hide StreakAfter, DroppedZeros, Observable, TagOf;
  }

  lemma FinishStreak(w: World, cfg: Config, suppressed: set<nat>)
    ensures w.phase.Fast? ==> FinishFast(w, cfg, w.phase.job, suppressed).streak == w.streak
    ensures w.phase.Slow? ==> FinishSlow(w, cfg, w.phase.job).streak == w.streak
  {
    hide Staged, Unretained, Values, AllFailed, Names, Observe, ObserveBatch;
    if w.phase.Fast? {
      var job := w.phase.job;
      var relinked := w.gen != job.genBefore;
      var u := ObserveBatch(w, cfg, cfg.fast, relinked, job.result)
               .(lastSlow := if relinked then map[] else w.lastSlow,
                 slowTick := if relinked then SLOW_TICKS - 1 else w.slowTick);
      BatchLeaves(w, cfg, cfg.fast, relinked, job.result);
      var staged := Staged(w, cfg, job.result);
      ObserveLeaves(u, staged.Keys, staged);
    } else if w.phase.Slow? {
      BatchLeaves(w, cfg, cfg.slow, w.gen != w.phase.job.genBefore, w.phase.job.result);
    }
  }

  /** The streaks the coordinator counts are those of the polls published so far. */
  lemma {:induction false} StreaksAreFilters(cfg: Config, run: seq<Event>)
    ensures After(cfg, run).streak == StreakBefore(cfg, Filters(cfg, run))
  {
    if run != [] {
      var m := |run| - 1;
      var front, ev := run[..m], run[m];
      var w := After(cfg, front);
      StreaksAreFilters(cfg, front);
      CountTellsFailures(cfg, front);
      hide Step, StreakAfter, FailedSince;
      StreakStep(w, cfg, ev);
      if Publishes(cfg, run, m) {
        var before := Filters(cfg, front);
        var one := Filtered(w.phase.job.data, FailedSince(cfg, front));
        assert Filters(cfg, run) == before + [one] && (before + [one])[..|before|] == before;
      } else {
        assert Filters(cfg, run) == Filters(cfg, front);
      }
    }
  }

  // ---------- what becomes of an implausible zero ----------

  /** What the filter lets pass: a poll without a failure, or a streak that has lasted. */
  ghost predicate Passed(cfg: Config, run: seq<Event>, n: string) {
    !FailedSince(cfg, run) || TwoHeld(Filters(cfg, run), n)
  }

  /** The filter's verdict on a zero held back is decided by the events of its poll alone. */
  lemma VerdictIs(cfg: Config, run: seq<Event>, n: string)
    requires Distinct(cfg.fast + cfg.slow)
    requires After(cfg, run).phase.Info? && n in After(cfg, run).phase.job.staged
    ensures
      var w := After(cfg, run);
      var dropped := DroppedZeros(cfg, w.phase.job.data, w.streak, w.failures > w.phase.job.failuresBefore);
      n in dropped <==> !Passed(cfg, run, n)
  {
    var w := After(cfg, run);
    EveryRunIsLaid(cfg, run);
    CountTellsFailures(cfg, run);
    StreaksAreFilters(cfg, run);
    assert WaitingZero(cfg, n, w.phase.job.staged[n].v) && n in w.phase.job.data;
    hide After, Filters, FailedSince;
    StreakIsCounted(cfg, Filters(cfg, run), n);
    TwoInStreak(Filters(cfg, run), n);
    hide StreakBefore, Streak, TwoFaulty;
  }

  /** Some earlier publication put the zero into the cache, and the filter had let it pass. */
  ghost predicate Justified(cfg: Config, run: seq<Event>, n: string, poll: nat) {
    exists k :: 0 <= k < |run| && Publishes(cfg, run, k)
      && After(cfg, run[..k]).polls == poll && Passed(cfg, run[..k], n)
  }

  lemma {:induction false} JustifiedStays(cfg: Config, run: seq<Event>, n: string, poll: nat)
    requires run != [] && Justified(cfg, run[..|run| - 1], n, poll)
    ensures Justified(cfg, run, n, poll)
  {
    var front := run[..|run| - 1];
    var k :| 0 <= k < |front| && Publishes(cfg, front, k)
      && After(cfg, front[..k]).polls == poll && Passed(cfg, front[..k], n);
    assert front[..k] == run[..k] && front[k] == run[k];
    hide After, Passed;
    assert Publishes(cfg, run, k);
  }

  /** An implausible zero stands in the cache after the step only if it stood there before, or the
      filter has just let it pass. */
  ghost predicate OnlyPublished(w: World, cfg: Config, ev: Event, n: string) {
    var v := Step(w, cfg, ev);
    n in v.observations && WaitingZero(cfg, n, v.observations[n].item.v) ==>
      || (n in w.observations && v.observations[n] == w.observations[n])
      || (ev.Publish? && w.phase.Info? && n in w.phase.job.staged && v.observations[n].poll == w.polls
          && n !in DroppedZeros(cfg, w.phase.job.data, w.streak, w.failures > w.phase.job.failuresBefore))
  }

  lemma BatchShowsNoZero(w: World, cfg: Config, regs: seq<Register>, relinked: bool, result: map<string, Item>,
                         n: string)
    ensures
      var v := ObserveBatch(w, cfg, regs, relinked, result);
      n in v.observations && WaitingZero(cfg, n, v.observations[n].item.v) ==>
        n in w.observations && v.observations[n] == w.observations[n]
  {
    hide IsZero, Names, Unretained, Observable, TagOf;
  }

  lemma FinishShowsNoZero(w: World, cfg: Config, suppressed: set<nat>, n: string)
    requires Laid(w, cfg)
    ensures OnlyPublished(w, cfg, FinishBatch(suppressed), n)
  {
    hide WaitingZero, Observe, ObserveBatch, Staged, Unretained, AllFailed, Values, Names, PublishStaged, DroppedZeros;
    if w.phase.Fast? && w.phase.rest == [] {
      var job := w.phase.job;
      var relinked := w.gen != job.genBefore;
      BatchShowsNoZero(w, cfg, cfg.fast, relinked, job.result, n);
      FastObservations(w, cfg, job, suppressed);
    } else if w.phase.Slow? && w.phase.rest == [] {
      var job := w.phase.job;
      BatchShowsNoZero(w, cfg, cfg.slow, w.gen != job.genBefore, job.result, n);
    }
  }

  /** When every fast register failed, nothing was held back either. */
  lemma FastObservations(w: World, cfg: Config, job: Job, suppressed: set<nat>)
    requires IsFrom(cfg.fast, job.result)
    ensures FinishFast(w, cfg, job, suppressed).observations
         == ObserveBatch(w, cfg, cfg.fast, w.gen != job.genBefore, job.result).observations
  {
    hide Observe, ObserveBatch, Values, Names, AllFailed, Unretained, Staged;
    if AllFailed(cfg.fast, Unretained(w, job.result), suppressed) {
      NothingHeldBack(w, cfg, job, suppressed);
      var relinked := w.gen != job.genBefore;
      ObserveNothing(ObserveBatch(w, cfg, cfg.fast, relinked, job.result)
                     .(lastSlow := if relinked then map[] else w.lastSlow,
                       slowTick := if relinked then SLOW_TICKS - 1 else w.slowTick));
    }
  }

  lemma NothingHeldBack(w: World, cfg: Config, job: Job, suppressed: set<nat>)
    requires IsFrom(cfg.fast, job.result) && AllFailed(cfg.fast, Unretained(w, job.result), suppressed)
    ensures Staged(w, cfg, job.result) == map[] && Staged(w, cfg, job.result).Keys == {}
  {
    assert forall n :: n in Unretained(w, job.result) ==> job.result[n].reg.name == n;
    assert Unretained(w, job.result) == map[];
  }

  lemma PublishShows(w: World, cfg: Config, n: string)
    ensures OnlyPublished(w, cfg, Publish, n)
  {
    hide WaitingZero, DroppedZeros, StreakAfter, Observable, TagOf, FinishFast, FinishSlow;
  }

  lemma OthersShowNothingNew(w: World, cfg: Config, ev: Event, n: string)
    requires !ev.FinishBatch? && !ev.Publish?
    ensures
      var v := Step(w, cfg, ev);
      n in v.observations ==> n in w.observations && v.observations[n] == w.observations[n]
  {
    hide FinishFast, FinishSlow, ReadOne, Overlapping, SkipNext, FailedBatch, Surroundings, PublishStaged, BeginPoll;
    hide TouchPhase, ClientRead, AddItem;
    match ev
    case ForeignRead(a, kind) => ClientReadLeaves(w, a, kind);
    case StartPoll => BeginLeaves(w, cfg);
    case ReadNext(outcome) =>
      if (w.phase.Fast? || w.phase.Slow?) && w.phase.rest != [] {
        ReadOneLeaves(w, w.phase.rest[0], outcome);
      }
    case FailNext => SkipLeaves(w);
    case FailBatch => FailedLeaves(w, cfg);
    case WriteCommand(_) =>
    case RawWrite(_, _) =>
    case _ => SurroundingsLeave(w, ev);
  }

  /** Over whole runs: wherever a zero of a register that cannot be zero stands in the proxy's cache,
      it was put there by the publication of a poll during which the inverter reported no failure,
      unless two earlier failing polls of the same streak had held one back. */
  lemma {:induction false} ZerosInCache(cfg: Config, run: seq<Event>, n: string)
    requires Distinct(cfg.fast + cfg.slow) && n in cfg.implausible
    requires n in After(cfg, run).observations && IsZero(After(cfg, run).observations[n].item.v)
    ensures Justified(cfg, run, n, After(cfg, run).observations[n].poll)
  {
    if run != [] {
      var m := |run| - 1;
      var front, ev := run[..m], run[m];
      var w, v := After(cfg, front), After(cfg, run);
      EveryRunIsLaid(cfg, front);
      if ev.FinishBatch? {
        FinishShowsNoZero(w, cfg, ev.suppressed, n);
      } else if ev.Publish? {
        PublishShows(w, cfg, n);
      } else {
        OthersShowNothingNew(w, cfg, ev, n);
      }
      hide Step, IsZero, Laid, DroppedZeros, Passed;
      if n in w.observations && v.observations[n] == w.observations[n] {
        ZerosInCache(cfg, front, n);
        JustifiedStays(cfg, run, n, v.observations[n].poll);
      } else {
        VerdictIs(cfg, front, n);
        assert Publishes(cfg, run, m);
      }
    }
  }

  /** And conversely: a zero held back enters the cache when its poll is published exactly if the
      filter lets it pass and it is still the device's own; otherwise the register has no entry. */
  lemma PublishJudges(cfg: Config, run: seq<Event>, n: string)
    requires Distinct(cfg.fast + cfg.slow)
    requires After(cfg, run).phase.Info? && n in After(cfg, run).phase.job.staged
    ensures
      var w, v := After(cfg, run), After(cfg, run + [Publish]);
      var item := w.phase.job.staged[n];
      && n in cfg.implausible && IsZero(item.v)
      && (n in v.observations <==> Passed(cfg, run, n) && item.reg.address !in w.retained)
      && (n in v.observations ==>
            v.observations[n].item == item && v.observations[n].poll == w.polls && v.observations[n].at == w.now)
  {
    var w := After(cfg, run);
    assert (run + [Publish])[..|run|] == run;
    EveryRunIsLaid(cfg, run);
    VerdictIs(cfg, run, n);
    assert WaitingZero(cfg, n, w.phase.job.staged[n].v);
    ZeroIsNumber(w.phase.job.staged[n].v);
    hide After, Passed, DroppedZeros, StreakAfter, TagOf, IsZero, IsNumber, IsFinite, FinishFast, FinishSlow;
    assert After(cfg, run + [Publish]) == Step(w, cfg, Publish) by { AfterOne(cfg, run, Publish); }
  }

  lemma AfterOne(cfg: Config, run: seq<Event>, ev: Event)
    ensures After(cfg, run + [ev]) == Step(After(cfg, run), cfg, ev)
  {
    assert (run + [ev])[..|run|] == run;
  }

  lemma ZeroIsNumber(v: Value)
    requires IsZero(v)
    ensures IsNumber(v) && IsFinite(v)
  {}
}
