/** The poll machine and the client together: whole runs in which every read is answered by a
    device and filtered by the client, and what a proxy read from the cache then carries
    (modbus_coordinator.py, modbus_client.py, modbus_proxy.py). */
module PolledCache {
  import opened Registers
  import opened RegisterCodec
  import opened QualityFilter
  import opened PollCoordinator
  import ProxyImage

  /** What a device answered to one read, decoded. */
  datatype Asked = Asked(reg: Register, v: Value)

  /** An event, with the device's answer if it is a read that reached the filter. */
  datatype Turn = Turn(ev: Event, answer: Option<Asked>)

  /** The poll machine's world and the client's memory of values. */
  datatype Played = Played(world: World, memo: Memo)

  function Next(p: Played, cfg: Config, t: Turn, policy: Policy): Played {
    Played(Step(p.world, cfg, t.ev),
           if t.answer.Some? then Accept(p.memo, t.answer.value.reg, t.answer.value.v, p.world.gen, policy).0
           else p.memo)
  }

  function Play(cfg: Config, turns: seq<Turn>, policy: Policy): Played {
    if turns == [] then Played(START, EMPTY_MEMO)
    else Next(Play(cfg, turns[..|turns| - 1], policy), cfg, turns[|turns| - 1], policy)
  }

  function Events(turns: seq<Turn>): seq<Event> {
    if turns == [] then [] else Events(turns[..|turns| - 1]) + [turns[|turns| - 1].ev]
  }

  function KindOf(m: Memo, reg: Register, v: Value, policy: Policy): Kind {
    if Passes(reg, v) then Genuine else if Filter(m, reg, v, policy).1.Some? then Substituted else Rejected
  }

  /** What the poll gets of an answer: the value the filter lets it have, and how. */
  function OutcomeOf(m: Memo, reg: Register, v: Value, policy: Policy): Outcome {
    var kept := Filter(m, reg, v, policy).1;
    if kept.Some? then Got(kept.value, KindOf(m, reg, v, policy)) else Missed(Rejected)
  }

  /** The register the running batch reads next. */
  function DueRegister(w: World): Option<Register> {
    if (w.phase.Fast? || w.phase.Slow?) && w.phase.rest != [] then Some(w.phase.rest[0]) else None
  }

  /** The event is what the client makes of the answer, over a live link. */
  predicate Follows(p: Played, t: Turn, policy: Policy) {
    match t.ev
    case ReadNext(outcome) =>
      && p.world.connected && !p.world.closing && t.answer.Some? && DueRegister(p.world) == Some(t.answer.value.reg)
      && outcome == OutcomeOf(p.memo, t.answer.value.reg, t.answer.value.v, policy)
    case ForeignRead(a, kind) =>
      && p.world.connected && !p.world.closing && t.answer.Some? && t.answer.value.reg.address == a
      && kind == KindOf(p.memo, t.answer.value.reg, t.answer.value.v, policy)
    case _ => t.answer.None?
  }

  /** Every read of the run is what the client made of some device's answer. */
  predicate Answered(cfg: Config, turns: seq<Turn>, policy: Policy) {
    turns == [] || (
      var front := turns[..|turns| - 1];
      Answered(cfg, front, policy) && Follows(Play(cfg, front, policy), turns[|turns| - 1], policy))
  }

  lemma {:induction false} PlaysEvents(cfg: Config, turns: seq<Turn>, policy: Policy)
    ensures Play(cfg, turns, policy).world == After(cfg, Events(turns)) && |Events(turns)| == |turns|
  {
    hide Step, Accept;
    if turns != [] {
      var front := turns[..|turns| - 1];
      PlaysEvents(cfg, front, policy);
      assert Events(turns)[..|turns| - 1] == Events(front);
    }
  }

  // ---------- the client's marks ----------

  /** A filtered read leaves the marks the poll machine says it leaves. */
  lemma ReadsMarkAsTheClient(w: World, m: Memo, reg: Register, v: Value, policy: Policy)
    requires w.clientGen == m.generation && w.retained == m.retained
    ensures var n := Accept(m, reg, v, w.gen, policy).0;
      ClientRead(w, reg.address, KindOf(m, reg, v, policy)) == w.(clientGen := n.generation, retained := n.retained)
  {
    hide Passes;
  }

  predicate SameMarks(w: World, v: World) { v.clientGen == w.clientGen && v.retained == w.retained }

  lemma BatchMarks(w: World, cfg: Config, regs: seq<Register>, relinked: bool, result: map<string, Item>,
                   names: set<string>, items: map<string, Item>)
    ensures SameMarks(w, ObserveBatch(w, cfg, regs, relinked, result)) && SameMarks(w, Observe(w, names, items))
  {
    hide Names, Suspects, Unretained, Observable, TagOf;
  }

  lemma FastMarks(w: World, cfg: Config, job: Job, suppressed: set<nat>)
    ensures SameMarks(w, FinishFast(w, cfg, job, suppressed))
  {
    hide ObserveBatch, Observe, Staged, Unretained, Values, AllFailed;
    var u := ObserveBatch(w, cfg, cfg.fast, w.gen != job.genBefore, job.result);
    BatchMarks(w, cfg, cfg.fast, w.gen != job.genBefore, job.result, {}, map[]);
    var v := u.(lastSlow := if w.gen != job.genBefore then map[] else w.lastSlow,
                slowTick := if w.gen != job.genBefore then SLOW_TICKS - 1 else w.slowTick);
    var staged := Staged(w, cfg, job.result);
    BatchMarks(v, cfg, [], false, map[], staged.Keys, staged);
  }

  lemma SlowMarks(w: World, cfg: Config, job: Job)
    ensures SameMarks(w, FinishSlow(w, cfg, job))
  {
    hide ObserveBatch, Staged, Unretained, Values, Names;
    BatchMarks(w, cfg, cfg.slow, w.gen != job.genBefore, job.result, {}, map[]);
  }

  lemma PublishMarks(w: World, cfg: Config, job: Job)
    ensures SameMarks(w, PublishStaged(w, cfg, job))
  {
    hide Observe, DroppedZeros, StreakAfter;
    var dropped := DroppedZeros(cfg, job.data, w.streak, w.failures > job.failuresBefore);
    BatchMarks(w, cfg, [], false, map[], job.staged.Keys, job.staged - dropped);
  }

  lemma QuietMarks(w: World, cfg: Config, ev: Event)
    ensures SameMarks(w, Surroundings(w, ev)) && SameMarks(w, SkipNext(w)) && SameMarks(w, FailedBatch(w, cfg))
    ensures SameMarks(w, BeginPoll(w, cfg))
  {
    hide Names;
    SurroundingsLeave(w, ev);
  }

  /** Only reads move the client's marks. */
  lemma OnlyReadsMark(w: World, cfg: Config, ev: Event)
    requires !ev.ReadNext? && !ev.ForeignRead?
    ensures SameMarks(w, Step(w, cfg, ev))
  {
    hide FinishFast, FinishSlow, PublishStaged, Surroundings, SkipNext, FailedBatch, BeginPoll, Overlapping;
    QuietMarks(w, cfg, ev);
    match ev
    case FinishBatch(suppressed) =>
      if w.phase.Fast? {
        FastMarks(w, cfg, w.phase.job, suppressed);
      } else if w.phase.Slow? {
        SlowMarks(w, cfg, w.phase.job);
      }
    case Publish => if w.phase.Info? { PublishMarks(w, cfg, w.phase.job); }
    case _ =>
  }

  lemma ReadsMark(w: World, cfg: Config, a: nat, kind: Kind, outcome: Outcome)
    ensures var v := Step(w, cfg, ForeignRead(a, kind));
      v.clientGen == ClientRead(w, a, kind).clientGen && v.retained == ClientRead(w, a, kind).retained
    ensures DueRegister(w).Some? ==>
      var v, u := Step(w, cfg, ReadNext(outcome)), ClientRead(w, DueRegister(w).value.address, outcome.kind);
      v.clientGen == u.clientGen && v.retained == u.retained
  {
    hide TouchPhase, ClientRead;
  }

  /** In every run the machine's marks are those of the client's memory: the connection of each
      address's latest genuine read, and the addresses whose latest read was substituted. */
  lemma {:induction false} MarksAreTheClients(cfg: Config, turns: seq<Turn>, policy: Policy)
    requires Answered(cfg, turns, policy)
    ensures var p := Play(cfg, turns, policy);
      p.world.clientGen == p.memo.generation && p.world.retained == p.memo.retained
  {
    if turns != [] {
      hide Step, Accept, ClientRead, Filter, Passes;
      var front, t := turns[..|turns| - 1], turns[|turns| - 1];
      MarksAreTheClients(cfg, front, policy);
      var p := Play(cfg, front, policy);
      match t.ev
      case ReadNext(outcome) =>
        ReadsMarkAsTheClient(p.world, p.memo, t.answer.value.reg, t.answer.value.v, policy);
        ReadsMark(p.world, cfg, 0, Genuine, outcome);
        OutcomeKind(p.memo, t.answer.value.reg, t.answer.value.v, policy);
      case ForeignRead(a, kind) =>
        ReadsMarkAsTheClient(p.world, p.memo, t.answer.value.reg, t.answer.value.v, policy);
        ReadsMark(p.world, cfg, a, kind, Missed(Rejected));
      case _ => OnlyReadsMark(p.world, cfg, t.ev);
    }
  }

  lemma OutcomeKind(m: Memo, reg: Register, v: Value, policy: Policy)
    ensures OutcomeOf(m, reg, v, policy).kind == KindOf(m, reg, v, policy)
  {
    hide Passes;
  }

  // ---------- a device that stands still ----------

  /** The register map and the device's words. */
  datatype Still = Still(table: seq<Register>, mem: Memory, e: Endianness)

  /** A name or an address names one register of the map. */
  ghost predicate NamesRegisters(table: seq<Register>) {
    forall r, q :: r in table && q in table && (r.address == q.address || r.name == q.name) ==> r == q
  }

  ghost predicate IsOf(d: Still, reg: Register, v: Value) {
    reg in d.table && WellFormed(reg) && v == Decode(RegisterBytes(d.mem, reg), reg, d.e)
  }

  ghost predicate AnswersFrom(d: Still, turns: seq<Turn>) {
    forall i :: 0 <= i < |turns| && turns[i].answer.Some? ==>
      IsOf(d, turns[i].answer.value.reg, turns[i].answer.value.v)
  }

  ghost predicate AllOf(d: Still, items: map<string, Item>) {
    forall n :: n in items ==> IsOf(d, items[n].reg, items[n].v)
  }

  ghost predicate JobOf(d: Still, job: Job) { AllOf(d, job.result) && AllOf(d, job.staged) }

  ghost predicate PhaseOf(d: Still, p: Phase) {
    p.Fast? || p.Slow? || p.Info? ==> JobOf(d, p.job)
  }

  ghost predicate ObservedOf(d: Still, observations: map<string, Observation>) {
    forall n :: n in observations ==> IsOf(d, observations[n].item.reg, observations[n].item.v)
  }

  ghost predicate MemoOf(d: Still, m: Memo) {
    forall reg :: reg in d.table && reg.address in m.lastGood ==> IsOf(d, reg, m.lastGood[reg.address])
  }

  lemma AcceptOf(d: Still, m: Memo, reg: Register, v: Value, gen: nat, policy: Policy)
    requires NamesRegisters(d.table) && MemoOf(d, m) && IsOf(d, reg, v)
    ensures MemoOf(d, Accept(m, reg, v, gen, policy).0)
    ensures OutcomeOf(m, reg, v, policy).Got? ==> IsOf(d, reg, OutcomeOf(m, reg, v, policy).v)
  {
    hide Passes, Decode;
  }

  lemma ObserveOf(d: Still, w: World, names: set<string>, items: map<string, Item>)
    requires ObservedOf(d, w.observations) && AllOf(d, items)
    ensures ObservedOf(d, Observe(w, names, items).observations)
  {
    hide IsOf, Observable, TagOf;
  }

  lemma BatchOf(d: Still, w: World, cfg: Config, regs: seq<Register>, relinked: bool, result: map<string, Item>)
    requires ObservedOf(d, w.observations) && AllOf(d, result)
    ensures ObservedOf(d, ObserveBatch(w, cfg, regs, relinked, result).observations) && AllOf(d, Staged(w, cfg, result))
  {
    hide IsOf, Observe, Names, IsZero;
    ObserveOf(d, Cleared(w, relinked), Names(regs) - Suspects(cfg, Unretained(w, result)), Unretained(w, result));
  }

  lemma NoneOf(d: Still)
    ensures ObservedOf(d, map[]) && AllOf(d, map[])
  {}

  lemma FewerOf(d: Still, observations: map<string, Observation>, names: set<string>)
    requires ObservedOf(d, observations)
    ensures ObservedOf(d, observations - names)
  {
    hide IsOf;
  }

  lemma FinishFastOf(d: Still, w: World, cfg: Config, job: Job, suppressed: set<nat>)
    requires ObservedOf(d, w.observations) && AllOf(d, job.result)
    ensures var v := FinishFast(w, cfg, job, suppressed); ObservedOf(d, v.observations) && PhaseOf(d, v.phase)
  {
    hide ObservedOf, AllOf, Observe, ObserveBatch, Staged, AllFailed, Unretained, Values;
    var relinked := w.gen != job.genBefore;
    BatchOf(d, w, cfg, cfg.fast, relinked, job.result);
    var staged, u := Staged(w, cfg, job.result), ObserveBatch(w, cfg, cfg.fast, relinked, job.result);
    var v := u.(lastSlow := if relinked then map[] else w.lastSlow,
                slowTick := if relinked then SLOW_TICKS - 1 else w.slowTick);
    ObserveOf(d, v, staged.Keys, staged);
    NoneOf(d);
  }

  lemma FinishSlowOf(d: Still, w: World, cfg: Config, job: Job)
    requires ObservedOf(d, w.observations) && AllOf(d, job.result) && AllOf(d, job.staged)
    ensures var v := FinishSlow(w, cfg, job); ObservedOf(d, v.observations) && PhaseOf(d, v.phase)
  {
    var relinked := w.gen != job.genBefore;
    BatchOf(d, w, cfg, cfg.slow, relinked, job.result);
    NoneOf(d);
    var waiting := (if relinked then map[] else job.staged) + Staged(w, cfg, job.result);
    assert AllOf(d, waiting) by { hide IsOf, Staged; }
    hide ObservedOf, AllOf, ObserveBatch, Staged, Unretained, Values, Names;
  }

  lemma PublishOf(d: Still, w: World, cfg: Config, job: Job)
    requires ObservedOf(d, w.observations) && AllOf(d, job.staged)
    ensures var v := PublishStaged(w, cfg, job); ObservedOf(d, v.observations) && PhaseOf(d, v.phase)
  {
    var dropped := DroppedZeros(cfg, job.data, w.streak, w.failures > job.failuresBefore);
    assert AllOf(d, job.staged - dropped) by { hide IsOf; }
    hide ObservedOf, AllOf, Observe, DroppedZeros, StreakAfter;
    ObserveOf(d, w, job.staged.Keys, job.staged - dropped);
  }

  lemma TouchItemsOf(d: Still, items: map<string, Item>, a: nat, f: Foreign)
    requires AllOf(d, items)
    ensures AllOf(d, Touch(items, a, f))
  {
    hide IsOf;
  }

  lemma TouchOf(d: Still, p: Phase, a: nat, f: Foreign)
    requires PhaseOf(d, p)
    ensures PhaseOf(d, TouchPhase(p, a, f))
  {
    hide AllOf, Touch;
    if p.Fast? || p.Slow? || p.Info? {
      TouchItemsOf(d, p.job.result, a, f);
      TouchItemsOf(d, p.job.staged, a, f);
    }
  }

  lemma AddOf(d: Still, w: World, job: Job, reg: Register, outcome: Outcome)
    requires AllOf(d, job.result) && (outcome.Got? ==> IsOf(d, reg, outcome.v))
    ensures AllOf(d, AddItem(job, ReadOne(w, reg, outcome).1).result)
    ensures AddItem(job, ReadOne(w, reg, outcome).1).staged == job.staged
  {
    hide IsOf, ClientRead;
  }

  lemma ReadOf(d: Still, w: World, cfg: Config, outcome: Outcome)
    requires ObservedOf(d, w.observations) && PhaseOf(d, w.phase)
    requires DueRegister(w).Some? && (outcome.Got? ==> IsOf(d, DueRegister(w).value, outcome.v))
    ensures var v := Step(w, cfg, ReadNext(outcome)); ObservedOf(d, v.observations) && PhaseOf(d, v.phase)
  {
    hide ObservedOf, AllOf, IsOf, ReadOne, AddItem, FinishFast, FinishSlow, PublishStaged, BeginPoll, TouchPhase;
    hide FailedBatch, SkipNext, Surroundings, Forget, ClientRead;
    var reg := DueRegister(w).value;
    AddOf(d, w, w.phase.job, reg, outcome);
    assert JobOf(d, AddItem(w.phase.job, ReadOne(w, reg, outcome).1));
    hide JobOf;
    ReadMarks(w, reg, outcome);
  }

  lemma BatchEventOf(d: Still, w: World, cfg: Config, suppressed: set<nat>)
    requires ObservedOf(d, w.observations) && PhaseOf(d, w.phase)
    ensures var v := Step(w, cfg, FinishBatch(suppressed)); ObservedOf(d, v.observations) && PhaseOf(d, v.phase)
  {
    hide FinishFast, FinishSlow, ObservedOf, AllOf;
    if w.phase.Fast? {
      FinishFastOf(d, w, cfg, w.phase.job, suppressed);
    } else if w.phase.Slow? {
      FinishSlowOf(d, w, cfg, w.phase.job);
    }
  }

  lemma PublishEventOf(d: Still, w: World, cfg: Config)
    requires ObservedOf(d, w.observations) && PhaseOf(d, w.phase)
    ensures var v := Step(w, cfg, Publish); ObservedOf(d, v.observations) && PhaseOf(d, v.phase)
  {
    hide PublishStaged, ObservedOf, AllOf;
    if w.phase.Info? { PublishOf(d, w, cfg, w.phase.job); }
  }

  lemma SkipNextOf(d: Still, w: World)
    requires PhaseOf(d, w.phase)
    ensures SkipNext(w).observations == w.observations && PhaseOf(d, SkipNext(w).phase)
  {
    hide JobOf;
    SkipKeepsJob(w);
    hide SkipNext;
  }

  lemma SkipKeepsJob(w: World)
    ensures SkipNext(w) == w.(phase := SkipNext(w).phase)
    ensures var p := SkipNext(w).phase;
      p == w.phase || ((p.Fast? || p.Slow?) && (w.phase.Fast? || w.phase.Slow?) && p.job == w.phase.job)
  {
    match w.phase
    case Fast(job, rest) =>
    case Slow(job, rest) =>
    case _ =>
  }

  lemma FailedBatchOf(d: Still, w: World, cfg: Config)
    requires ObservedOf(d, w.observations) && PhaseOf(d, w.phase)
    ensures ObservedOf(d, FailedBatch(w, cfg).observations) && PhaseOf(d, FailedBatch(w, cfg).phase)
  {
    hide ObservedOf, AllOf, Names;
    FewerOf(d, w.observations, Names(cfg.slow));
    NoneOf(d);
  }

  lemma BeginPollOf(d: Still, w: World, cfg: Config)
    requires ObservedOf(d, w.observations) && PhaseOf(d, w.phase)
    ensures ObservedOf(d, BeginPoll(w, cfg).observations) && PhaseOf(d, BeginPoll(w, cfg).phase)
  {
    NoneOf(d);
    hide ObservedOf, AllOf;
  }

  lemma IdleOf(d: Still)
    ensures PhaseOf(d, Idle)
  {}

  lemma OtherOf(d: Still, w: World, cfg: Config, ev: Event)
    requires ObservedOf(d, w.observations) && PhaseOf(d, w.phase) && !ev.ReadNext? && !ev.FinishBatch? && !ev.Publish?
    ensures var v := Step(w, cfg, ev); ObservedOf(d, v.observations) && PhaseOf(d, v.phase)
  {
    hide ObservedOf, JobOf, PhaseOf, SkipNext, FailedBatch, BeginPoll, Surroundings, Overlapping, TouchPhase;
    hide FinishFast, FinishSlow, PublishStaged, ReadOne;
    IdleOf(d);
    match ev
    case ForeignRead(a, kind) =>
      TouchOf(d, w.phase, a, Foreign(kind, w.gen));
      hide ClientRead;
      ReadLeavesPhase(w, a, kind);
    case WriteCommand(name) => FewerOf(d, w.observations, {name});
    case RawWrite(address, quantity) => FewerOf(d, w.observations, Overlapping(w, address, quantity));
    case StartPoll => BeginPollOf(d, w, cfg);
    case FailNext => SkipNextOf(d, w);
    case FailBatch => FailedBatchOf(d, w, cfg);
    case _ => SurroundingsLeave(w, ev);
  }

  lemma ReadLeavesPhase(w: World, a: nat, kind: Kind)
    ensures ClientRead(w, a, kind).observations == w.observations && ClientRead(w, a, kind).phase == w.phase
  {}

  lemma TurnOf(d: Still, p: Played, cfg: Config, t: Turn, policy: Policy)
    requires NamesRegisters(d.table) && Follows(p, t, policy)
    requires t.answer.Some? ==> IsOf(d, t.answer.value.reg, t.answer.value.v)
    requires ObservedOf(d, p.world.observations) && PhaseOf(d, p.world.phase) && MemoOf(d, p.memo)
    ensures var q := Next(p, cfg, t, policy);
      ObservedOf(d, q.world.observations) && PhaseOf(d, q.world.phase) && MemoOf(d, q.memo)
  {
    hide Step, IsOf, Accept, OutcomeOf, KindOf, ObservedOf, PhaseOf, MemoOf;
    if t.answer.Some? {
      AcceptOf(d, p.memo, t.answer.value.reg, t.answer.value.v, p.world.gen, policy);
    }
    match t.ev
    case ReadNext(outcome) => ReadOf(d, p.world, cfg, outcome);
    case FinishBatch(suppressed) => BatchEventOf(d, p.world, cfg, suppressed);
    case Publish => PublishEventOf(d, p.world, cfg);
    case _ => OtherOf(d, p.world, cfg, t.ev);
  }

  lemma {:induction false} RunOf(d: Still, cfg: Config, turns: seq<Turn>, policy: Policy)
    requires NamesRegisters(d.table) && Answered(cfg, turns, policy) && AnswersFrom(d, turns)
    ensures var p := Play(cfg, turns, policy);
      ObservedOf(d, p.world.observations) && PhaseOf(d, p.world.phase) && MemoOf(d, p.memo)
  {
    hide Next, IsOf;
    if turns != [] {
      var front, t := turns[..|turns| - 1], turns[|turns| - 1];
      assert forall i :: 0 <= i < |front| ==> front[i] == turns[i];
      RunOf(d, cfg, front, policy);
      hide ObservedOf, PhaseOf, MemoOf, Follows;
      TurnOf(d, Play(cfg, front, policy), cfg, t, policy);
    }
  }

  /** What a proxy read finds in the cache. */
  function CacheOf(w: World, cfg: Config): ProxyImage.Cache {
    map n | n in Served(w, cfg) :: Served(w, cfg)[n].item.v
  }

  /** While the device's words stand still, the cache holds at every point of every run exactly
      observations of them, whatever other tasks read in between. */
  lemma CacheObservesDevice(d: Still, cfg: Config, turns: seq<Turn>, policy: Policy)
    requires NamesRegisters(d.table) && Distinct(cfg.fast + cfg.slow)
    requires Answered(cfg, turns, policy) && AnswersFrom(d, turns)
    ensures ProxyImage.Observed(d.table, CacheOf(Play(cfg, turns, policy).world, cfg), d.mem, d.e)
  {
    RunOf(d, cfg, turns, policy);
    PlaysEvents(cfg, turns, policy);
    var w := Play(cfg, turns, policy).world;
    hide Served, Play, Answered, AnswersFrom, IsOf, NamesRegisters, Distinct;
    forall reg | reg in d.table && reg.name in CacheOf(w, cfg)
      ensures WellFormed(reg) && reg.dtype != STRING
      ensures CacheOf(w, cfg)[reg.name] == Decode(RegisterBytes(d.mem, reg), reg, d.e)
    {
      ServedValuesAreSound(cfg, Events(turns), reg.name);
      ServedIsObserved(w, cfg, reg.name);
      ServedIsRegisters(d, reg, Served(w, cfg)[reg.name].item);
    }
  }

  lemma ServedIsRegisters(d: Still, reg: Register, item: Item)
    requires NamesRegisters(d.table) && reg in d.table && item.reg.name == reg.name
    requires IsOf(d, item.reg, item.v) && IsNumber(item.v)
    ensures WellFormed(reg) && reg.dtype != STRING && item.v == Decode(RegisterBytes(d.mem, reg), reg, d.e)
  {
    assert item.reg == reg;
  }

  lemma ServedIsObserved(w: World, cfg: Config, n: string)
    requires n in Served(w, cfg)
    ensures n in w.observations && Served(w, cfg)[n] == w.observations[n]
  {}

  /** So a proxy read answered from the cache, at any point of any run of polls, writes,
      reconnects and other tasks' reads, carries the very words the device holds, unless a BOOL or
      UINT8 word that does not round-trip is among them; and then it does not. */
  lemma CacheHitCarriesDeviceWords(d: Still, cfg: Config, turns: seq<Turn>, policy: Policy,
                                   start: nat, quantity: nat, image: seq<byte>)
    requires NamesRegisters(d.table) && Distinct(cfg.fast + cfg.slow)
    requires Answered(cfg, turns, policy) && AnswersFrom(d, turns)
    requires |image| == 2 * quantity
    requires
      var cache := CacheOf(Play(cfg, turns, policy).world, cfg);
      && ProxyImage.Hit(d.table, cache, d.e, start, quantity)
      && forall k :: 0 <= k < quantity ==>
           WordOf(image, k)
           == ProxyImage.CoveredWord(ProxyImage.Server(d.table, cache, d.e, start, k).value, cache, d.e, start, k)
    ensures image == ReadWords(d.mem, start, quantity) <==>
      forall k :: 0 <= k < quantity ==>
        ProxyImage.FaithfulAt(d.table, CacheOf(Play(cfg, turns, policy).world, cfg), d.mem, d.e, start, k)
  {
    CacheObservesDevice(d, cfg, turns, policy);
    hide Answered, Play;
    var cache := CacheOf(Play(cfg, turns, policy).world, cfg);
    ProxyImage.HitIsTransparent(d.table, cache, d.mem, d.e, start, quantity, image);
  }
}
