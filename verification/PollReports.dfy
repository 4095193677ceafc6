/** What a poll shows and when (modbus_coordinator.py): the entries a finished batch leaves, the
    readings it merges, when the slow registers are due, and how long a value may be served. */
module PollReports {
  import opened Registers
  import opened QualityFilter
  import opened PollCoordinator
  import opened DeviceFailures

  // ---------- a finished batch ----------

  /** What the proxy's cache holds for a name once a batch with that register is finished: a value
      that was read and is no substitute now, tagged with the connection of the latest genuine read
      of its address; the old entry, unless the link was re-established, for a zero that has to
      wait; and otherwise nothing. */
  ghost predicate Shown(w: World, cfg: Config, n: string, relinked: bool, result: map<string, Item>, v: World) {
    if n in result && result[n].reg.address !in w.retained then
      var item := result[n];
      if n in cfg.implausible && IsZero(item.v) then
        if n in w.observations && !relinked then n in v.observations && v.observations[n] == w.observations[n]
        else n !in v.observations
      else if IsNumber(item.v) && IsFinite(item.v) then
        && n in v.observations
        && v.observations[n].item == item && v.observations[n].at == w.now && v.observations[n].poll == w.polls
        && v.observations[n].tag
           == (if item.reg.address in w.clientGen then w.clientGen[item.reg.address] else w.gen)
      else n !in v.observations
    else n !in v.observations
  }

  /** And for any other name: what it held, unless the link was re-established. */
  ghost predicate Untouched(w: World, n: string, relinked: bool, v: World) {
    if relinked then n !in v.observations
    else (n in v.observations <==> n in w.observations)
         && (n in w.observations ==> v.observations[n] == w.observations[n])
  }

  lemma ObserveEntry(w: World, names: set<string>, items: map<string, Item>, n: string)
    ensures
      var v := Observe(w, names, items);
      if n in names then
        && (n in v.observations <==> n in items && Observable(w, items[n]))
        && (n in v.observations ==>
              v.observations[n] == Observation(items[n], w.now, TagOf(w, items[n].reg), w.polls))
      else
        && (n in v.observations <==> n in w.observations)
        && (n in v.observations ==> v.observations[n] == w.observations[n])
  {
    hide Observable, TagOf;
  }

  lemma ClearedEntry(w: World, relinked: bool, n: string)
    ensures
      var u := Cleared(w, relinked);
      && u.retained == w.retained && u.clientGen == w.clientGen
      && u.now == w.now && u.gen == w.gen && u.polls == w.polls
      && (n in u.observations <==> n in w.observations && !relinked)
      && (n in u.observations ==> u.observations[n] == w.observations[n])
  {}

  lemma BatchShown(w: World, cfg: Config, regs: seq<Register>, relinked: bool, result: map<string, Item>, n: string)
    requires IsFrom(regs, result)
    ensures
      var v := ObserveBatch(w, cfg, regs, relinked, result);
      if exists reg :: reg in regs && reg.name == n then Shown(w, cfg, n, relinked, result, v)
      else Untouched(w, n, relinked, v)
  {
    hide IsZero, IsNumber, IsFinite, Observe, Cleared;
    assert n in Names(regs) <==> exists reg :: reg in regs && reg.name == n;
    var u, items := Cleared(w, relinked), Unretained(w, result);
    ClearedEntry(w, relinked, n);
    ObserveEntry(u, Names(regs) - Suspects(cfg, items), items, n);
  }

  /** The fast batch, and the slow one. */
  lemma FinishedBatchIsShown(w: World, cfg: Config, suppressed: set<nat>, n: string)
    requires Laid(w, cfg) && (w.phase.Fast? || w.phase.Slow?) && w.phase.rest == []
    ensures
      var v := Step(w, cfg, FinishBatch(suppressed));
      var regs, relinked := if w.phase.Fast? then cfg.fast else cfg.slow, w.gen != w.phase.job.genBefore;
      if exists reg :: reg in regs && reg.name == n then Shown(w, cfg, n, relinked, w.phase.job.result, v)
      else Untouched(w, n, relinked, v)
  {
    hide Observe, ObserveBatch, Values, AllFailed, Unretained, Staged, Names, PublishStaged, IsZero;
    var regs := if w.phase.Fast? then cfg.fast else cfg.slow;
    BatchShown(w, cfg, regs, w.gen != w.phase.job.genBefore, w.phase.job.result, n);
    if w.phase.Fast? {
      FastObservations(w, cfg, w.phase.job, suppressed);
    }
  }

  lemma StagedEntry(w: World, cfg: Config, result: map<string, Item>, n: string)
    ensures n in Staged(w, cfg, result) <==>
      n in result && result[n].reg.address !in w.retained && n in cfg.implausible && IsZero(result[n].v)
    ensures n in Staged(w, cfg, result) ==> Staged(w, cfg, result)[n] == result[n]
  {
    hide IsZero;
  }

  /** The zeros that have to wait are those the batch has read, and those that already did, unless
      the link was re-established. */
  lemma ZerosAreHeldBack(w: World, cfg: Config, suppressed: set<nat>, v: World, n: string)
    requires Laid(w, cfg) && (w.phase.Fast? || w.phase.Slow?) && w.phase.rest == []
    requires v == Step(w, cfg, FinishBatch(suppressed)) && (v.phase.Slow? || v.phase.Info?)
    ensures
      var job, next := w.phase.job, v.phase.job;
      var waits := n in job.result && job.result[n].reg.address !in w.retained
                   && n in cfg.implausible && IsZero(job.result[n].v);
      var waited := w.phase.Slow? && n in job.staged && w.gen == job.genBefore;
      && (n in next.staged <==> waits || waited)
      && (waits ==> next.staged[n] == job.result[n])
      && (waited && !waits ==> next.staged[n] == job.staged[n])
  {
    StagedEntry(w, cfg, w.phase.job.result, n);
    hide IsZero, Staged, FinishFast, FinishSlow;
    if w.phase.Fast? {
      FastEnds(w, cfg, w.phase.job, suppressed);
    } else {
      SlowEnds(w, cfg, w.phase.job);
    }
  }

  // ---------- the merged readings ----------

  /** The readings of this name's batch that still count. */
  function Reading(w: World, result: map<string, Item>, n: string): Option<Value> {
    if n in result && result[n].reg.address !in w.retained then Some(result[n].v) else None
  }

  function ValueOf(data: map<string, Value>, n: string): Option<Value> {
    if n in data then Some(data[n]) else None
  }

  lemma ReadingIs(w: World, result: map<string, Item>, n: string)
    ensures ValueOf(Values(Unretained(w, result)), n) == Reading(w, result, n)
  {}

  lemma ReadingNames(w: World, regs: seq<Register>, result: map<string, Item>, n: string)
    requires IsFrom(regs, result)
    ensures Reading(w, result, n).Some? ==> n in result && n in Names(regs)
  {}

  lemma ValueOfMerged(data: map<string, Value>, more: map<string, Value>, n: string)
    ensures ValueOf(data + more, n) == if n in more then Some(more[n]) else ValueOf(data, n)
  {}

  /** After the fast batch the poll reports what it read, and the slow values of the last slow batch
      on this connection. */
  lemma FastMerges(w: World, cfg: Config, suppressed: set<nat>, n: string)
    requires Laid(w, cfg) && Distinct(cfg.fast + cfg.slow) && w.phase.Fast? && w.phase.rest == []
    requires !Step(w, cfg, FinishBatch(suppressed)).phase.Idle?
    ensures
      var v := Step(w, cfg, FinishBatch(suppressed));
      var kept := if w.gen != w.phase.job.genBefore then map[] else w.lastSlow;
      && ValueOf(v.phase.job.data, n)
         == (if n in kept then Some(kept[n]) else Reading(w, w.phase.job.result, n))
      && (n in kept ==> Reading(w, w.phase.job.result, n).None?)
  {
    hide FinishFast, FinishSlow, Staged, Distinct, Names, Reading, Unretained, Values, IsFrom, ValueOf;
    var job := w.phase.job;
    FastEnds(w, cfg, job, suppressed);
    FastIsNotSlow(cfg, job.result, map[]);
    ReadingIs(w, job.result, n);
    ReadingNames(w, cfg.fast, job.result, n);
    ValueOfMerged(Values(Unretained(w, job.result)), if w.gen != job.genBefore then map[] else w.lastSlow, n);
  }

  /** After the slow batch it reports what that read; of what was read before, the slow values only
      while the link is the same. */
  lemma SlowMerges(w: World, cfg: Config, suppressed: set<nat>, n: string)
    requires w.phase.Slow? && w.phase.rest == []
    ensures
      var v := Step(w, cfg, FinishBatch(suppressed));
      var isSlow := exists reg :: reg in cfg.slow && reg.name == n;
      var read := Reading(w, w.phase.job.result, n);
      && v.phase.Info?
      && ValueOf(v.phase.job.data, n)
         == (if read.Some? then read
             else if isSlow && w.gen != w.phase.job.genBefore then None else ValueOf(w.phase.job.data, n))
      && ValueOf(v.lastSlow, n) == read
  {
    SlowEnds(w, cfg, w.phase.job);
    hide FinishFast, FinishSlow, Staged, Distinct;
  }

  // ---------- when the slow registers are due ----------

  /** The polls in a row, up to now, that went on from their fast registers without the slow ones. */
  function Skips(cfg: Config, run: seq<Event>): nat {
    if run == [] then 0
    else
      var front := run[..|run| - 1];
      var w, v := After(cfg, front), After(cfg, run);
      if w.phase.Fast? && v.phase.Slow? then 0
      else Skips(cfg, front) + if w.phase.Fast? && v.phase.Info? then 1 else 0
  }

  /** The slow registers are wanted with the next poll: none have been read since the start, since a
      command was written, or since the link was found re-established. */
  predicate Wanted(cfg: Config, run: seq<Event>) {
    if run == [] then true
    else
      var ev, front := run[|run| - 1], run[..|run| - 1];
      var w := After(cfg, front);
      if w.phase.Fast? && After(cfg, run).phase.Slow? then false
      else
        || Wanted(cfg, front) || ev.CommandWritten?
        || (ev.StartPoll? && w.phase.Idle? && !w.closing && !w.connected)
        || (ev.FinishBatch? && w.phase.Fast? && w.phase.rest == [] && w.gen != w.phase.job.genBefore)
  }

  /** The tick counts the polls that skipped, unless the slow registers are wanted at once. */
  predicate Ticks(w: World, wanted: bool, skips: nat) {
    if wanted then w.slowTick == 5 else w.slowTick == skips <= 5
  }

  lemma FastTicks(w: World, cfg: Config, job: Job, suppressed: set<nat>)
    ensures
      var v := FinishFast(w, cfg, job, suppressed);
      var tick := if w.gen != job.genBefore then 5 else w.slowTick;
      && (v.phase.Idle? ==> v.slowTick == tick)
      && (v.phase.Slow? ==> tick >= 5 && v.slowTick == 0)
      && (v.phase.Info? ==> tick < 5 && v.slowTick == tick + 1)
      && (v.phase.Idle? || v.phase.Slow? || v.phase.Info?)
  {
    hide FinishFast, Staged, Unretained, Values;
    FastShape(w, cfg, job, suppressed);
  }

  /** Anything but the end of a fast batch leaves the tick, or sets it because the slow registers
      are wanted; and no such event leads from the fast to the slow registers. */
  lemma OtherTicks(w: World, cfg: Config, ev: Event)
    requires !(ev.FinishBatch? && w.phase.Fast? && w.phase.rest == [])
    ensures
      var v := Step(w, cfg, ev);
      && v.slowTick == (if ev.CommandWritten? || (ev.StartPoll? && w.phase.Idle? && !w.closing && !w.connected)
                        then 5 else w.slowTick)
      && (w.phase.Fast? ==> !v.phase.Slow? && !v.phase.Info?)
  {
    hide FinishFast, FinishSlow, ReadOne, Overlapping, TouchPhase, PublishStaged, ClientRead, AddItem, SkipNext;
    hide FailedBatch, Surroundings;
    match ev
    case ForeignRead(a, kind) => TouchTicks(w, a, kind);
    case ReadNext(outcome) =>
      if (w.phase.Fast? || w.phase.Slow?) && w.phase.rest != [] {
        ReadTicks(w, w.phase.rest[0], outcome);
      }
    case FinishBatch(_) => if w.phase.Slow? { SlowTicks(w, cfg, w.phase.job); }
    case Publish => if w.phase.Info? { PublishTicks(w, cfg, w.phase.job); }
    case FailNext => SkipTicks(w);
    case FailBatch => FailTicks(w, cfg);
    case StartPoll =>
    case WriteCommand(_) =>
    case RawWrite(_, _) =>
    case _ => SurroundingsTicks(w, ev);
  }

  lemma TouchTicks(w: World, a: nat, kind: Kind)
    ensures ClientRead(w, a, kind).slowTick == w.slowTick
    ensures w.phase.Fast? ==> TouchPhase(w.phase, a, Foreign(kind, w.gen)).Fast?
  {}

  lemma ReadTicks(w: World, reg: Register, outcome: Outcome)
    ensures ReadOne(w, reg, outcome).0.slowTick == w.slowTick
  {}

  lemma SlowTicks(w: World, cfg: Config, job: Job)
    ensures FinishSlow(w, cfg, job).slowTick == w.slowTick
  {
    hide Staged, Unretained, Values, ObserveBatch, Names;
    BatchLeaves(w, cfg, cfg.slow, w.gen != job.genBefore, job.result);
  }

  lemma PublishTicks(w: World, cfg: Config, job: Job)
    ensures PublishStaged(w, cfg, job).slowTick == w.slowTick
  {
    hide DroppedZeros, StreakAfter, Observable, TagOf;
  }

  lemma SkipTicks(w: World)
    ensures SkipNext(w).slowTick == w.slowTick && (w.phase.Fast? ==> SkipNext(w).phase.Fast?)
  {
    if w.phase.Fast? {
    } else if w.phase.Slow? {
    }
  }

  lemma FailTicks(w: World, cfg: Config)
    ensures FailedBatch(w, cfg).slowTick == w.slowTick
    ensures w.phase.Fast? ==> FailedBatch(w, cfg).phase == w.phase || FailedBatch(w, cfg).phase.Idle?
  {
    hide Names;
  }

  lemma SurroundingsTicks(w: World, ev: Event)
    ensures Surroundings(w, ev).slowTick == if ev.CommandWritten? then 5 else w.slowTick
    ensures Surroundings(w, ev).phase == w.phase || Surroundings(w, ev).phase.Idle?
  {}

  lemma {:induction false} TicksTell(cfg: Config, run: seq<Event>)
    ensures Ticks(After(cfg, run), Wanted(cfg, run), Skips(cfg, run))
  {
    if run != [] {
      var front, ev := run[..|run| - 1], run[|run| - 1];
      var w := After(cfg, front);
      TicksTell(cfg, front);
      hide FinishFast, FinishSlow;
      if ev.FinishBatch? && w.phase.Fast? && w.phase.rest == [] {
        FastTicks(w, cfg, w.phase.job, ev.suppressed);
      } else {
        OtherTicks(w, cfg, ev);
        hide Step;
      }
    }
  }

  /** A poll whose fast registers did not all fail reads the slow ones exactly when they are wanted,
      the link was re-established meanwhile, or five polls in a row have skipped them. */
  lemma SlowBatchIsDue(cfg: Config, run: seq<Event>, suppressed: set<nat>)
    requires After(cfg, run).phase.Fast? && After(cfg, run).phase.rest == []
    ensures
      var w := After(cfg, run);
      var v := After(cfg, run + [FinishBatch(suppressed)]);
      !v.phase.Idle? ==>
        (v.phase.Slow? <==> Wanted(cfg, run) || w.gen != w.phase.job.genBefore || Skips(cfg, run) == 5)
  {
    TicksTell(cfg, run);
    AfterOne(cfg, run, FinishBatch(suppressed));
    var w := After(cfg, run);
    FastTicks(w, cfg, w.phase.job, suppressed);
    hide After, FinishFast, FinishSlow, Wanted, Skips;
  }

  // ---------- when a poll fails ----------

  /** The fast batch fails the poll exactly when there are fast registers, none of them suppressed, and
      every one came back without a value that counts. */
  lemma FastFails(w: World, cfg: Config, suppressed: set<nat>)
    requires w.phase.Fast? && w.phase.rest == []
    ensures
      var v := Step(w, cfg, FinishBatch(suppressed));
      && (v.phase.Idle? <==>
            cfg.fast != [] && forall reg :: reg in cfg.fast ==>
              reg.address !in suppressed && Reading(w, w.phase.job.result, reg.name).None?)
      && (v.phase.Idle? ==> !v.success)
  {
    hide Observe, ObserveBatch, Values, Staged, Names, PublishStaged, IsZero, FinishSlow;
  }

  // ---------- serving ----------

  predicate IsSlowGroup(g: Group) {
    g == ENERGY || g == CONTROL || g == BATTERY_MGMT || g == BATTERY_LIMIT_G3 || g == IO_BOARD
  }

  /** An observation is served exactly while the link is up, the last poll succeeded, it carries the
      present connection, and it is no older than 15 s or three intervals, whichever is longer; six
      times that for a register of the slow groups. */
  lemma ServedExactly(w: World, cfg: Config, n: string)
    ensures n in Served(w, cfg) <==>
      && w.connected && !w.closing && w.success
      && n in w.observations && w.observations[n].tag == w.gen
      && var o := w.observations[n];
         var age, times := w.now - o.at, if IsSlowGroup(o.item.reg.group) then 6.0 else 1.0;
         age >= 0.0 && (age <= 15.0 * times || age <= 3.0 * cfg.interval * times)
    ensures n in Served(w, cfg) ==> Served(w, cfg)[n] == w.observations[n]
  {
    if n in w.observations {
      var times := if IsSlowGroup(w.observations[n].item.reg.group) then 6.0 else 1.0;
      assert cfg.interval * 3.0 * times == 3.0 * cfg.interval * times;
    }
  }
}
