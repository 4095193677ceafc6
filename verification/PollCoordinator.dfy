/** The poll coordinator as a state machine (modbus_coordinator.py): each event is one stretch
    between two awaits of a poll, of another task using the same client, or of the environment.
    Proxy reads look at the observations in between. */
module PollCoordinator {
  import opened Registers
  import opened QualityFilter
  import RegisterCodec

  const MAX_CONSECUTIVE_ZERO_DROPS := 2
  const SLOW_TICKS := 6

  datatype Config = Config(fast: seq<Register>, slow: seq<Register>, implausible: set<string>, interval: real)

  function Names(regs: seq<Register>): set<string> {
    set reg | reg in regs :: reg.name
  }

  predicate IsZero(v: Value) {
    match v
    case IntV(i) => i == 0
    case FloatV(f) => f.b0 % 128 == 0 && f.b1 == 0 && f.b2 == 0 && f.b3 == 0
    case BoolV(b) => !b
    case TextV(_) => false
  }

  lemma ZeroProduct(x: real, p: real, y: real)
    requires p > 0.0 && x * p == y
    ensures x == 0.0 <==> y == 0.0
  {}

  /** A scaled magnitude is zero exactly when its bits are. */
  lemma ZeroMagnitude(exponent: nat, fraction: nat, magnitude: real)
    requires if exponent == 0 then magnitude * Pow2(149) == fraction as real
             else magnitude * Pow2(150) == (0x80_0000 + fraction) as real * Pow2(exponent)
    ensures magnitude == 0.0 <==> exponent == 0 && fraction == 0
  {
    hide Pow2;
    if exponent == 0 {
      ZeroProduct(magnitude, Pow2(149), fraction as real);
    } else {
      var scaled := (0x80_0000 + fraction) as real * Pow2(exponent);
      ZeroProduct((0x80_0000 + fraction) as real, Pow2(exponent), scaled);
      ZeroProduct(magnitude, Pow2(150), scaled);
    }
  }

  lemma ZeroPattern(f: Float32)
    requires f.Finite()
    ensures IsZero(FloatV(f)) <==> RealOfFloat(f) == 0.0
  {
    hide RealOfFloat, Pow2, RegisterCodec.Base256;
    FloatDenotes(f);
    FractionBits(f.b1 % 128, f.b2, f.b3);
    ZeroMagnitude((f.b0 % 128) * 2 + f.b1 / 128, RegisterCodec.Base256([f.b1 % 128, f.b2, f.b3]),
                  if f.b0 >= 128 then -RealOfFloat(f) else RealOfFloat(f));
  }

  /** What counts as a zero is a finite number that is zero, of either sign. */
  lemma ZeroExactly(v: Value)
    ensures IsZero(v) <==> IsNumber(v) && IsFinite(v) && RealOf(v) == 0.0
  {
    if v.FloatV? && v.f.Finite() { ZeroPattern(v.f); }
    hide RealOfFloat;
  }

  /** How a filtered read ended: with the device's own value, with the remembered one in its
      place, or refused. */
  datatype Kind = Genuine | Substituted | Rejected

  /** A read of the same address by another task. */
  datatype Foreign = Foreign(kind: Kind, gen: nat)

  /** A value a poll has read and not yet observed: the connection it was read on, how, and the
      reads other tasks made of the address since. */
  datatype Item = Item(reg: Register, v: Value, gen: nat, kind: Kind, since: seq<Foreign>)

  /** An entry of the proxy cache: the item it came from, when, the connection it is tagged with
      and the poll that put it there. */
  datatype Observation = Observation(item: Item, at: real, tag: nat, poll: nat)

  datatype Job = Job(
    genBefore: nat, failuresBefore: nat,
    result: map<string, Item>, staged: map<string, Item>, data: map<string, Value>)

  datatype Phase =
    | Idle
    | Fast(job: Job, rest: seq<Register>)
    | Slow(job: Job, rest: seq<Register>)
    | Info(job: Job)
    | Reporting

  datatype World = World(
    gen: nat, connected: bool, closing: bool, success: bool, now: real,
    failures: nat,                    // Server Device Failure answers seen
    clientGen: map<nat, nat>,         // the client's observation_generations
    retained: set<nat>,               // the client's retained_quality_addresses
    observations: map<string, Observation>,
    streak: map<string, nat>,
    lastSlow: map<string, Value>, slowTick: nat,
    phase: Phase,
    polls: nat,                       // polls started
    dropped: set<(string, nat)>)      // zeros the filter dropped, by name and poll

  datatype Outcome = Missed(kind: Kind) | Got(v: Value, kind: Kind)

  datatype Event =
    | Tick(dt: real)
    | DeviceFailure
    | Disconnect
    | Reconnect
    | Shutdown
    | ForeignRead(address: nat, kind: Kind)
    | WriteCommand(name: string)
    | CommandWritten
    | RawWrite(address: nat, quantity: nat)
    | StartPoll
    | ReadNext(outcome: Outcome)
    | FailNext
    | FinishBatch(suppressed: set<nat>)
    | FailBatch
    | Publish
    | EndPoll
    | CancelPoll

  // ---------- observing ----------

  function TagOf(w: World, reg: Register): nat {
    if reg.address in w.clientGen then w.clientGen[reg.address] else w.gen
  }

  /** A value the proxy cache takes. */
  predicate Observable(w: World, item: Item) {
    item.reg.address !in w.retained && IsNumber(item.v) && IsFinite(item.v)
  }

  /** `_observe_for_proxy`: every attempted register loses its entry and gets a new one only for
      an observable value. */
  function Observe(w: World, names: set<string>, items: map<string, Item>): World {
    w.(observations :=
      map n | n in w.observations.Keys + names && (n in names ==> n in items && Observable(w, items[n])) ::
        if n in names then Observation(items[n], w.now, TagOf(w, items[n].reg), w.polls) else w.observations[n])
  }

  /** The zeros that wait for the device-failure filter. */
  function Suspects(cfg: Config, items: map<string, Item>): set<string> {
    set n | n in items && n in cfg.implausible && IsZero(items[n].v)
  }

  function Values(items: map<string, Item>): map<string, Value> {
    map n | n in items :: items[n].v
  }

  /** A batch without the values that are marked as substituted now. */
  function Unretained(w: World, items: map<string, Item>): map<string, Item> {
    map n | n in items && items[n].reg.address !in w.retained :: items[n]
  }

  /** Every register of the batch failed without being suppressed. */
  predicate AllFailed(regs: seq<Register>, items: map<string, Item>, suppressed: set<nat>) {
    regs != [] && forall reg :: reg in regs ==> reg.name !in items && reg.address !in suppressed
  }

  // ---------- the zero filter ----------

  function StreakOf(streak: map<string, nat>, n: string): nat {
    if n in streak then streak[n] else 0
  }

  /** `_drop_implausible_zeros`. */
  function DroppedZeros(cfg: Config, data: map<string, Value>, streak: map<string, nat>, failure: bool): set<string> {
    set n | n in cfg.implausible && n in data && failure && IsZero(data[n])
            && StreakOf(streak, n) + 1 <= MAX_CONSECUTIVE_ZERO_DROPS
  }

  function StreakAfter(cfg: Config, data: map<string, Value>, streak: map<string, nat>, failure: bool)
    : map<string, nat>
  {
    map n | n in streak.Keys + cfg.implausible
            && (if n in cfg.implausible && n in data then failure && IsZero(data[n]) else n in streak) ::
      if n in cfg.implausible && n in data then StreakOf(streak, n) + 1 else streak[n]
  }

  // ---------- steps ----------

  function Touch(items: map<string, Item>, a: nat, f: Foreign): map<string, Item> {
    map n | n in items ::
      if items[n].reg.address == a then items[n].(since := items[n].since + [f]) else items[n]
  }

  function TouchJob(job: Job, a: nat, f: Foreign): Job {
    job.(result := Touch(job.result, a, f), staged := Touch(job.staged, a, f))
  }

  function TouchPhase(p: Phase, a: nat, f: Foreign): Phase {
    match p
    case Fast(job, rest) => Fast(TouchJob(job, a, f), rest)
    case Slow(job, rest) => Slow(TouchJob(job, a, f), rest)
    case Info(job) => Info(TouchJob(job, a, f))
    case _ => p
  }

  /** What any filtered read of address `a` does to the client's marks. */
  function ClientRead(w: World, a: nat, kind: Kind): World {
    match kind
    case Genuine => w.(clientGen := w.clientGen[a := w.gen], retained := w.retained - {a})
    case Substituted => w.(retained := w.retained + {a})
    case Rejected => w.(retained := w.retained - {a})
  }

  function BeginPoll(w: World, cfg: Config): World {
    if w.closing then w
    else
      var v := if w.connected then w
               else w.(gen := w.gen + 1, connected := true, slowTick := SLOW_TICKS - 1,
                       lastSlow := map[], observations := map[]);
      v.(phase := Fast(Job(v.gen, v.failures, map[], map[], map[]), cfg.fast), polls := v.polls + 1)
  }

  /** The poll's next register is read on the current connection. */
  function ReadOne(w: World, reg: Register, outcome: Outcome): (World, Option<Item>) {
    (ClientRead(w, reg.address, outcome.kind),
     if outcome.Got? && outcome.kind != Rejected then Some(Item(reg, outcome.v, w.gen, outcome.kind, [])) else None)
  }

  function AddItem(job: Job, item: Option<Item>): Job {
    if item.Some? then job.(result := job.result[item.value.reg.name := item.value]) else job
  }

  /** A link re-established during the poll empties the cache first. */
  function Cleared(w: World, relinked: bool): World {
    if relinked then w.(observations := map[]) else w
  }

  /** `_observe_or_stage`: a finished batch enters the cache, except the zeros that must wait. */
  function ObserveBatch(w: World, cfg: Config, regs: seq<Register>, relinked: bool, result: map<string, Item>): World {
    var items := Unretained(w, result);
    Observe(Cleared(w, relinked), Names(regs) - Suspects(cfg, items), items)
  }

  function Staged(w: World, cfg: Config, result: map<string, Item>): map<string, Item> {
    map n | n in Suspects(cfg, Unretained(w, result)) :: result[n]
  }

  function FinishFast(w: World, cfg: Config, job: Job, suppressed: set<nat>): World {
    var relinked := w.gen != job.genBefore;
    var items, staged := Unretained(w, job.result), Staged(w, cfg, job.result);
    var u := ObserveBatch(w, cfg, cfg.fast, relinked, job.result)
             .(lastSlow := if relinked then map[] else w.lastSlow,
               slowTick := if relinked then SLOW_TICKS - 1 else w.slowTick);
    if AllFailed(cfg.fast, items, suppressed) then
      Observe(u, staged.Keys, staged).(phase := Idle, success := false)
    else
      var next := job.(result := map[], staged := staged, data := Values(items) + u.lastSlow);
      if u.slowTick + 1 >= SLOW_TICKS
      then u.(slowTick := 0, phase := Slow(next, cfg.slow))
      else u.(slowTick := u.slowTick + 1, phase := Info(next))
  }

  function FinishSlow(w: World, cfg: Config, job: Job): World {
    var relinked := w.gen != job.genBefore;
    var items := Unretained(w, job.result);
    var u := ObserveBatch(w, cfg, cfg.slow, relinked, job.result);
    var staged := (if relinked then map[] else job.staged) + Staged(w, cfg, job.result);
    var data := (if relinked then job.data - Names(cfg.slow) else job.data) + Values(items);
    u.(lastSlow := Values(items), phase := Info(job.(result := map[], staged := staged, data := data)))
  }

  function PublishStaged(w: World, cfg: Config, job: Job): World {
    var failure := w.failures > job.failuresBefore;
    var dropped := DroppedZeros(cfg, job.data, w.streak, failure);
    var v := Observe(w, job.staged.Keys, job.staged - dropped);
    v.(streak := StreakAfter(cfg, job.data, w.streak, failure), phase := Reporting,
       dropped := w.dropped + set n | n in dropped :: (n, w.polls))
  }

  function Forget(w: World, names: set<string>): World {
    w.(observations := w.observations - names)
  }

  function Overlapping(w: World, address: nat, quantity: nat): set<string> {
    set n | n in w.observations
            && w.observations[n].item.reg.address < address + quantity
            && address < w.observations[n].item.reg.address + w.observations[n].item.reg.count
  }

  /** The next register could not be read, so the filter saw nothing of it. */
  function SkipNext(w: World): World {
    match w.phase
    case Fast(job, rest) => if rest == [] then w else w.(phase := Fast(job, rest[1..]))
    case Slow(job, rest) => if rest == [] then w else w.(phase := Slow(job, rest[1..]))
    case _ => w
  }

  /** The read of a whole batch ended in an exception; only a lost link or a shutdown does that. */
  function FailedBatch(w: World, cfg: Config): World {
    if w.connected && !w.closing then w else
    match w.phase
    case Fast(job, rest) => w.(phase := Idle, success := w.closing)
    case Slow(job, rest) => Forget(w, Names(cfg.slow)).(phase := Info(job.(result := map[])))
    case _ => w
  }

  /** Time, the link, and the ends of a poll. */
  function Surroundings(w: World, ev: Event): World {
    match ev
    case Tick(dt) => if dt >= 0.0 then w.(now := w.now + dt) else w
    case DeviceFailure => w.(failures := w.failures + 1)
    case Disconnect => w.(connected := false)
    case Reconnect => if w.closing then w else w.(connected := true, gen := w.gen + 1)
    case Shutdown => w.(closing := true, connected := false)
    // a written control register is read back by the next poll
    case CommandWritten => w.(slowTick := SLOW_TICKS - 1)
    case EndPoll => if w.phase.Reporting? then w.(phase := Idle, success := true) else w
    case CancelPoll => w.(phase := Idle)
    case _ => w
  }

  /** One event; an event that is not due changes nothing. */
  function Step(w: World, cfg: Config, ev: Event): World {
    match ev
    case ForeignRead(a, kind) =>
      ClientRead(w, a, kind).(phase := TouchPhase(w.phase, a, Foreign(kind, w.gen)))
    case WriteCommand(name) => Forget(w, {name})
    case RawWrite(address, quantity) => Forget(w, Overlapping(w, address, quantity))
    case StartPoll => if w.phase.Idle? then BeginPoll(w, cfg) else w
    case ReadNext(outcome) =>
      (match w.phase
       case Fast(job, rest) =>
         if rest == [] then w
         else var (v, item) := ReadOne(w, rest[0], outcome); v.(phase := Fast(AddItem(job, item), rest[1..]))
       case Slow(job, rest) =>
         if rest == [] then w
         else var (v, item) := ReadOne(w, rest[0], outcome); v.(phase := Slow(AddItem(job, item), rest[1..]))
       case _ => w)
    case FinishBatch(suppressed) =>
      (match w.phase
       case Fast(job, rest) => if rest == [] then FinishFast(w, cfg, job, suppressed) else w
       case Slow(job, rest) => if rest == [] then FinishSlow(w, cfg, job) else w
       case _ => w)
    case FailNext => SkipNext(w)
    case FailBatch => FailedBatch(w, cfg)
    case Publish => if w.phase.Info? then PublishStaged(w, cfg, w.phase.job) else w
    case _ => Surroundings(w, ev)
  }

  const START := World(1, true, false, false, 0.0, 0, map[], {}, map[], map[], map[], SLOW_TICKS - 1, Idle, 0, {})

  function After(cfg: Config, run: seq<Event>): World {
    if run == [] then START else Step(After(cfg, run[..|run| - 1]), cfg, run[|run| - 1])
  }

  /** `proxy_cache_data`: what a proxy read may be answered with right now. */
  function Ttl(cfg: Config, reg: Register): real {
    var base := if 15.0 > cfg.interval * 3.0 then 15.0 else cfg.interval * 3.0;
    base * (if reg.group in {ENERGY, CONTROL, BATTERY_MGMT, BATTERY_LIMIT_G3, IO_BOARD} then 6.0 else 1.0)
  }

  function Served(w: World, cfg: Config): map<string, Observation> {
    if w.closing || !w.connected || !w.success then map[]
    else
      map n | n in w.observations
              && w.observations[n].tag == w.gen
              && 0.0 <= w.now - w.observations[n].at <= Ttl(cfg, w.observations[n].item.reg) :: w.observations[n]
  }

  // ---------- what every step keeps ----------

  function LastKind(item: Item): Kind {
    if item.since == [] then item.kind else item.since[|item.since| - 1].kind
  }

  /** The connection of the latest of these reads that gave the device's own value. */
  function LatestGenuine(since: seq<Foreign>): Option<nat> {
    if since == [] then None
    else if since[|since| - 1].kind == Genuine then Some(since[|since| - 1].gen)
    else LatestGenuine(since[..|since| - 1])
  }

  /** The connection of the latest genuine read of the address, by the poll or since. */
  function LastGenuine(item: Item): Option<nat> {
    if LatestGenuine(item.since).Some? then LatestGenuine(item.since)
    else if item.kind == Genuine then Some(item.gen) else None
  }

  /** The client's marks for the address are those its latest read left. */
  ghost predicate Linked(w: World, item: Item) {
    && (item.reg.address in w.retained <==> LastKind(item) == Substituted)
    && (LastGenuine(item).Some? ==>
          item.reg.address in w.clientGen && w.clientGen[item.reg.address] == LastGenuine(item).value)
  }

  /** Another task's reads since the poll read the address have overwritten what the client
      remembers about that read: a later read that was not substituted hides that this one was,
      or a later genuine read happened on another connection. */
  predicate Disturbed(item: Item) {
    if item.kind == Substituted then item.since != [] && LastKind(item) != Substituted
    else LatestGenuine(item.since).Some? && LatestGenuine(item.since).value != item.gen
  }

  /** The observed value is the device's own, read on the connection it is tagged with. */
  predicate Sound(o: Observation) {
    o.item.kind == Genuine && o.item.gen == o.tag
  }

  predicate WaitingZero(cfg: Config, n: string, v: Value) {
    n in cfg.implausible && IsZero(v)
  }

  ghost predicate ItemOk(w: World, cfg: Config, n: string, item: Item) {
    && item.reg in cfg.fast + cfg.slow && item.reg.name == n
    && item.gen <= w.gen && item.kind != Rejected && Linked(w, item)
  }

  ghost predicate ObservationOk(w: World, cfg: Config, n: string, o: Observation) {
    && o.item.reg.name == n && IsNumber(o.item.v) && IsFinite(o.item.v)
    && o.at <= w.now && o.poll <= w.polls && o.item.gen <= w.gen && o.item.kind != Rejected
    && (Sound(o) <==> !Disturbed(o.item))
    && (WaitingZero(cfg, n, o.item.v) ==> (n, o.poll) !in w.dropped)
  }

  ghost predicate ItemsOk(w: World, cfg: Config, items: map<string, Item>) {
    forall n :: n in items ==> ItemOk(w, cfg, n, items[n])
  }

  ghost predicate ObservationsOk(w: World, cfg: Config) {
    forall n :: n in w.observations ==> ObservationOk(w, cfg, n, w.observations[n])
  }

  /** The registers still to be read are none of those already read. */
  ghost predicate Ahead(cfg: Config, items: map<string, Item>, rest: seq<Register>) {
    forall n, reg :: n in items && reg in rest ==> items[n].reg.address != reg.address
  }

  ghost predicate RestOk(cfg: Config, rest: seq<Register>) {
    Distinct(rest) && forall reg :: reg in rest ==> reg in cfg.fast + cfg.slow
  }

  /** The running poll has put no waiting zero into the cache and dropped nothing yet. */
  ghost predicate ZerosWait(w: World, cfg: Config) {
    && (forall n :: n in w.observations && w.observations[n].poll == w.polls ==>
          !WaitingZero(cfg, n, w.observations[n].item.v))
    && forall n :: (n, w.polls) !in w.dropped
  }

  ghost predicate JobOk(w: World, cfg: Config, job: Job, rest: seq<Register>) {
    && ItemsOk(w, cfg, job.result) && ItemsOk(w, cfg, job.staged)
    && RestOk(cfg, rest) && Ahead(cfg, job.result, rest) && Ahead(cfg, job.staged, rest)
    && ZerosWait(w, cfg)
  }

  ghost predicate PhaseOk(w: World, cfg: Config) {
    match w.phase
    case Fast(job, rest) => job.staged == map[] && JobOk(w, cfg, job, rest)
                            && (forall n :: n in job.result ==> job.result[n].reg in cfg.fast)
                            && (forall reg :: reg in rest ==> reg in cfg.fast)
    case Slow(job, rest) => JobOk(w, cfg, job, rest)
    case Info(job) => job.result == map[] && JobOk(w, cfg, job, [])
    case _ => true
  }

  ghost predicate Inv(w: World, cfg: Config) {
    && ObservationsOk(w, cfg) && PhaseOk(w, cfg)
    && forall d :: d in w.dropped ==> d.1 <= w.polls
  }

  // ---------- observing touches nothing else ----------

  /** Observing a batch changes nothing but the observations. */
  lemma BatchLeaves(w: World, cfg: Config, regs: seq<Register>, relinked: bool, result: map<string, Item>)
    ensures var u := ObserveBatch(w, cfg, regs, relinked, result); u == w.(observations := u.observations)
  {
    hide Names, Suspects, Unretained, Observable, TagOf;
  }

  lemma ObserveLeaves(w: World, names: set<string>, items: map<string, Item>)
    ensures Observe(w, names, items) == w.(observations := Observe(w, names, items).observations)
  {
    hide Observable, TagOf;
  }

  /** The end of a fast batch field by field. */
  lemma FastShape(w: World, cfg: Config, job: Job, suppressed: set<nat>)
    ensures
      var v, relinked := FinishFast(w, cfg, job, suppressed), w.gen != job.genBefore;
      var kept, tick := if relinked then map[] else w.lastSlow, if relinked then SLOW_TICKS - 1 else w.slowTick;
      var next := job.(result := map[], staged := Staged(w, cfg, job.result),
                       data := Values(Unretained(w, job.result)) + kept);
      && v == w.(observations := v.observations, lastSlow := kept, slowTick := v.slowTick, phase := v.phase,
                 success := !v.phase.Idle? && w.success)
      && (v.phase.Idle? ==> v.phase == Idle && v.slowTick == tick)
      && (!v.phase.Idle? && tick + 1 >= SLOW_TICKS ==> v.phase == Slow(next, cfg.slow) && v.slowTick == 0)
      && (!v.phase.Idle? && tick + 1 < SLOW_TICKS ==> v.phase == Info(next) && v.slowTick == tick + 1)
  {
    hide Staged, Unretained, Values, AllFailed, ObserveBatch, Observe;
    var relinked, staged := w.gen != job.genBefore, Staged(w, cfg, job.result);
    BatchLeaves(w, cfg, cfg.fast, relinked, job.result);
    if AllFailed(cfg.fast, Unretained(w, job.result), suppressed) {
      ObserveLeaves(ObserveBatch(w, cfg, cfg.fast, relinked, job.result)
                    .(lastSlow := if relinked then map[] else w.lastSlow,
                      slowTick := if relinked then SLOW_TICKS - 1 else w.slowTick), staged.Keys, staged);
    }
  }

  // ---------- observing keeps the invariant ----------

  /** The moment of truth: an observed value is sound exactly when it was not disturbed. */
  lemma ObservedSoundness(w: World, cfg: Config, n: string, item: Item)
    requires ItemOk(w, cfg, n, item) && Observable(w, item)
    ensures
      var o := Observation(item, w.now, TagOf(w, item.reg), w.polls);
      Sound(o) <==> !Disturbed(item)
  {}

  lemma ObserveKeeps(w: World, cfg: Config, names: set<string>, items: map<string, Item>)
    requires ObservationsOk(w, cfg) && ItemsOk(w, cfg, items)
    requires forall n :: n in names && n in items && WaitingZero(cfg, n, items[n].v) ==> (n, w.polls) !in w.dropped
    ensures ObservationsOk(Observe(w, names, items), cfg)
  {
    hide Disturbed, Linked, IsFinite;
    var v := Observe(w, names, items);
    forall n | n in v.observations
      ensures ObservationOk(v, cfg, n, v.observations[n])
    {
      if n in names {
        assert ItemOk(w, cfg, n, items[n]);
        ObservedSoundness(w, cfg, n, items[n]);
      } else {
        assert ObservationOk(w, cfg, n, w.observations[n]);
      }
    }
  }

  // ---------- every event keeps the invariant ----------

  lemma TouchKeepsLink(w: World, item: Item, kind: Kind)
    requires Linked(w, item)
    ensures Linked(ClientRead(w, item.reg.address, kind), item.(since := item.since + [Foreign(kind, w.gen)]))
  {
    var longer := item.since + [Foreign(kind, w.gen)];
    assert longer[..|item.since|] == item.since;
  }

  /** A foreign read updates the marks of its address and the history of its items together. */
  lemma TouchKeepsItems(w: World, cfg: Config, a: nat, kind: Kind, items: map<string, Item>)
    requires ItemsOk(w, cfg, items)
    ensures ItemsOk(ClientRead(w, a, kind), cfg, Touch(items, a, Foreign(kind, w.gen)))
  {
    hide LastGenuine, LastKind;
    forall n | n in items
      ensures ItemOk(ClientRead(w, a, kind), cfg, n, Touch(items, a, Foreign(kind, w.gen))[n])
    {
      assert ItemOk(w, cfg, n, items[n]);
      if items[n].reg.address == a {
        TouchKeepsLink(w, items[n], kind);
      }
    }
  }

  lemma SameObservations(w: World, v: World, cfg: Config)
    requires ObservationsOk(w, cfg)
    requires v.observations == w.observations && v.dropped == w.dropped
    requires v.now >= w.now && v.polls >= w.polls && v.gen >= w.gen
    ensures ObservationsOk(v, cfg)
  {
    forall n | n in v.observations ensures ObservationOk(v, cfg, n, v.observations[n]) {
      assert ObservationOk(w, cfg, n, w.observations[n]);
    }
  }

  lemma FewerObservations(w: World, v: World, cfg: Config)
    requires ObservationsOk(w, cfg) && v.observations.Keys <= w.observations.Keys
    requires forall n :: n in v.observations ==> v.observations[n] == w.observations[n]
    requires v.now == w.now && v.polls == w.polls && v.gen == w.gen && v.dropped == w.dropped
    ensures ObservationsOk(v, cfg)
    ensures ZerosWait(w, cfg) ==> ZerosWait(v, cfg)
  {
    forall n | n in v.observations ensures ObservationOk(v, cfg, n, v.observations[n]) {
      assert ObservationOk(w, cfg, n, w.observations[n]);
    }
  }

  /** Reads leave the items of other addresses linked. */
  lemma ItemsElsewhere(w: World, v: World, cfg: Config, items: map<string, Item>)
    requires ItemsOk(w, cfg, items) && v.gen >= w.gen
    requires forall n :: n in items ==>
      && (items[n].reg.address in v.retained <==> items[n].reg.address in w.retained)
      && (items[n].reg.address in w.clientGen ==>
            && items[n].reg.address in v.clientGen
            && v.clientGen[items[n].reg.address] == w.clientGen[items[n].reg.address])
    ensures ItemsOk(v, cfg, items)
  {
    forall n | n in items ensures ItemOk(v, cfg, n, items[n]) {
      assert ItemOk(w, cfg, n, items[n]);
    }
  }

  lemma RestTail(cfg: Config, rest: seq<Register>)
    requires RestOk(cfg, rest) && rest != []
    ensures RestOk(cfg, rest[1..]) && rest[0] in cfg.fast + cfg.slow
    ensures forall reg :: reg in rest[1..] ==> reg in rest && reg.address != rest[0].address
  {
    forall r | r in rest[1..] ensures r in rest && r.address != rest[0].address {
      var k :| 0 <= k < |rest[1..]| && rest[1..][k] == r;
      assert rest[k + 1] == r;
    }
  }

  lemma ReadItem(w: World, cfg: Config, reg: Register, outcome: Outcome)
    requires reg in cfg.fast + cfg.slow
    ensures
      var (v, item) := ReadOne(w, reg, outcome);
      item.Some? ==> item.value.reg == reg && ItemOk(v, cfg, reg.name, item.value)
  {}

  lemma ReadMarks(w: World, reg: Register, outcome: Outcome)
    ensures
      var v := ReadOne(w, reg, outcome).0;
      && v == w.(clientGen := v.clientGen, retained := v.retained)
      && forall a :: a != reg.address ==>
           && (a in v.retained <==> a in w.retained)
           && (a in w.clientGen ==> a in v.clientGen && v.clientGen[a] == w.clientGen[a])
  {
    match outcome.kind
    case Genuine =>
    case Substituted =>
    case Rejected =>
  }

  /** The poll reads its next register. */
  lemma ReadKeeps(w: World, cfg: Config, job: Job, rest: seq<Register>, outcome: Outcome)
    requires JobOk(w, cfg, job, rest) && rest != [] && ObservationsOk(w, cfg)
    ensures
      var (v, item) := ReadOne(w, rest[0], outcome);
      JobOk(v, cfg, AddItem(job, item), rest[1..]) && ObservationsOk(v, cfg)
  {
    hide Disturbed, IsZero, Linked, ItemOk, ObservationOk, ReadOne, WaitingZero, RestOk;
    var (v, item) := ReadOne(w, rest[0], outcome);
    assert rest[0] in rest;
    RestTail(cfg, rest);
    ReadMarks(w, rest[0], outcome);
    SameObservations(w, v, cfg);
    ItemsElsewhere(w, v, cfg, job.result);
    ItemsElsewhere(w, v, cfg, job.staged);
    ReadItem(w, cfg, rest[0], outcome);
  }

  lemma SubItems(w: World, cfg: Config, items: map<string, Item>, some: map<string, Item>)
    requires ItemsOk(w, cfg, items)
    requires forall n :: n in some ==> n in items && some[n] == items[n]
    ensures ItemsOk(w, cfg, some)
  {
    forall n | n in some ensures ItemOk(w, cfg, n, some[n]) {
      assert ItemOk(w, cfg, n, items[n]);
    }
  }

  /** The observing half of a finished batch: everything but the suspects enters the cache. */
  lemma BatchKeeps(w: World, cfg: Config, names: set<string>, items: map<string, Item>)
    requires ObservationsOk(w, cfg) && ItemsOk(w, cfg, items) && ZerosWait(w, cfg)
    ensures
      var v := Observe(w, names - Suspects(cfg, items), items);
      ObservationsOk(v, cfg) && ItemsOk(v, cfg, items) && ZerosWait(v, cfg)
  {
    hide IsZero, Disturbed, Linked;
    var v := Observe(w, names - Suspects(cfg, items), items);
    ObserveKeeps(w, cfg, names - Suspects(cfg, items), items);
    ItemsElsewhere(w, v, cfg, items);
  }

  lemma UnretainedKeeps(w: World, v: World, cfg: Config, items: map<string, Item>)
    requires ItemsOk(w, cfg, items)
    requires v.gen == w.gen && v.clientGen == w.clientGen && v.retained == w.retained
    ensures ItemsOk(v, cfg, Unretained(v, items))
  {
    hide LastGenuine, LastKind;
    forall n | n in Unretained(v, items) ensures ItemOk(v, cfg, n, items[n]) {
      assert ItemOk(w, cfg, n, items[n]);
    }
  }

  /** A failed batch reports nothing, so nothing is staged that would miss the filter. */
  lemma AllFailedReadNothing(cfg: Config, items: map<string, Item>, suppressed: set<nat>)
    requires AllFailed(cfg.fast, items, suppressed)
    requires forall n :: n in items ==> items[n].reg in cfg.fast && items[n].reg.name == n
    ensures items == map[]
  {
    assert forall n :: n in items ==> items[n].reg.name in items;
  }

  lemma SlowAhead(cfg: Config, items: map<string, Item>)
    requires Distinct(cfg.fast + cfg.slow)
    requires forall n :: n in items ==> items[n].reg in cfg.fast
    ensures RestOk(cfg, cfg.slow) && Ahead(cfg, items, cfg.slow)
  {
    var both := cfg.fast + cfg.slow;
    forall n, reg | n in items && reg in cfg.slow ensures items[n].reg.address != reg.address {
      var i :| 0 <= i < |cfg.fast| && cfg.fast[i] == items[n].reg;
      var j :| 0 <= j < |cfg.slow| && cfg.slow[j] == reg;
      assert both[i] == items[n].reg && both[|cfg.fast| + j] == reg;
    }
    forall i, j | 0 <= i < j < |cfg.slow|
      ensures cfg.slow[i].name != cfg.slow[j].name && cfg.slow[i].address != cfg.slow[j].address
    {
      assert both[|cfg.fast| + i] == cfg.slow[i] && both[|cfg.fast| + j] == cfg.slow[j];
    }
  }

  lemma FastAhead(cfg: Config)
    requires Distinct(cfg.fast + cfg.slow)
    ensures RestOk(cfg, cfg.fast)
  {
    var both := cfg.fast + cfg.slow;
    forall i, j | 0 <= i < j < |cfg.fast|
      ensures cfg.fast[i].name != cfg.fast[j].name && cfg.fast[i].address != cfg.fast[j].address
    {
      assert both[i] == cfg.fast[i] && both[j] == cfg.fast[j];
    }
  }

  lemma ClearedKeeps(w: World, cfg: Config, relinked: bool)
    requires ObservationsOk(w, cfg) && ZerosWait(w, cfg)
    ensures ObservationsOk(Cleared(w, relinked), cfg) && ZerosWait(Cleared(w, relinked), cfg)
  {
    hide ObservationOk, WaitingZero;
  }

  lemma ObserveBatchKeeps(w: World, cfg: Config, regs: seq<Register>, relinked: bool, result: map<string, Item>)
    requires ObservationsOk(w, cfg) && ZerosWait(w, cfg) && ItemsOk(w, cfg, result)
    ensures
      var u := ObserveBatch(w, cfg, regs, relinked, result);
      && u == w.(observations := u.observations)
      && ObservationsOk(u, cfg) && ZerosWait(u, cfg)
      && ItemsOk(u, cfg, Staged(w, cfg, result))
  {
    hide ObservationOk, WaitingZero, ItemOk, Suspects;
    var v, items := Cleared(w, relinked), Unretained(w, result);
    ClearedKeeps(w, cfg, relinked);
    UnretainedKeeps(w, v, cfg, result);
    assert Unretained(v, result) == items;
    BatchKeeps(v, cfg, Names(regs), items);
    SuspectsAreItems(cfg, items);
    SubItems(ObserveBatch(w, cfg, regs, relinked, result), cfg, items, Staged(w, cfg, result));
  }

  lemma SuspectsAreItems(cfg: Config, items: map<string, Item>)
    ensures Suspects(cfg, items) <= items.Keys
  {}

  /** The job a finished batch hands to the next phase. */
  lemma NextJob(u: World, v: World, cfg: Config, next: Job, rest: seq<Register>)
    requires ObservationsOk(u, cfg) && ZerosWait(u, cfg) && ItemsOk(u, cfg, next.staged) && next.result == map[]
    requires v == u.(phase := v.phase, lastSlow := v.lastSlow, slowTick := v.slowTick)
    requires RestOk(cfg, rest) && Ahead(cfg, next.staged, rest)
    ensures ObservationsOk(v, cfg) && JobOk(v, cfg, next, rest)
  {
    hide ObservationOk, WaitingZero, ItemOk, RestOk;
    SameObservations(u, v, cfg);
    ItemsElsewhere(u, v, cfg, next.staged);
  }

  lemma FailedFastKeeps(w: World, cfg: Config, job: Job, suppressed: set<nat>)
    requires Inv(w, cfg) && w.phase == Fast(job, [])
    requires AllFailed(cfg.fast, Unretained(w, job.result), suppressed)
    ensures Inv(FinishFast(w, cfg, job, suppressed), cfg)
  {
    hide ItemsOk, ZerosWait, ObservationsOk, Suspects, ObserveBatch, Observe, Unretained, AllFailed, Staged;
    var relinked := w.gen != job.genBefore;
    var u, v := ObserveBatch(w, cfg, cfg.fast, relinked, job.result), FinishFast(w, cfg, job, suppressed);
    ObserveBatchKeeps(w, cfg, cfg.fast, relinked, job.result);
    FailedStagesNothing(w, cfg, job.result, suppressed);
    ObserveNothing(u.(lastSlow := if relinked then map[] else w.lastSlow,
                      slowTick := if relinked then SLOW_TICKS - 1 else w.slowTick));
    SameObservations(u, v, cfg);
  }

  lemma FinishFastKeeps(w: World, cfg: Config, job: Job, suppressed: set<nat>)
    requires Inv(w, cfg) && w.phase == Fast(job, []) && Distinct(cfg.fast + cfg.slow)
    ensures Inv(FinishFast(w, cfg, job, suppressed), cfg)
  {
    hide ItemsOk, ZerosWait, ObservationsOk, ObserveBatch, Observe, Ahead, RestOk, Unretained, AllFailed, JobOk;
    hide Staged, Values, Names;
    if AllFailed(cfg.fast, Unretained(w, job.result), suppressed) {
      FailedFastKeeps(w, cfg, job, suppressed);
    } else {
      var u := ObserveBatch(w, cfg, cfg.fast, w.gen != job.genBefore, job.result);
      var v := FinishFast(w, cfg, job, suppressed);
      JobParts(w, cfg, job, []);
      ObserveBatchKeeps(w, cfg, cfg.fast, w.gen != job.genBefore, job.result);
      StagedRegisters(w, cfg, job.result);
      SlowAhead(cfg, Staged(w, cfg, job.result));
      NothingAhead(cfg, Staged(w, cfg, job.result));
      NextJob(u, v, cfg, v.phase.job, if v.phase.Slow? then cfg.slow else []);
    }
  }

  lemma JobParts(w: World, cfg: Config, job: Job, rest: seq<Register>)
    requires JobOk(w, cfg, job, rest)
    ensures ItemsOk(w, cfg, job.result) && ItemsOk(w, cfg, job.staged) && ZerosWait(w, cfg)
  {}

  lemma StagedRegisters(w: World, cfg: Config, result: map<string, Item>)
    ensures forall n :: n in Staged(w, cfg, result) ==> n in result && Staged(w, cfg, result)[n] == result[n]
  {}

  lemma FailedStagesNothing(w: World, cfg: Config, result: map<string, Item>, suppressed: set<nat>)
    requires ItemsOk(w, cfg, result) && forall n :: n in result ==> result[n].reg in cfg.fast
    requires AllFailed(cfg.fast, Unretained(w, result), suppressed)
    ensures Staged(w, cfg, result) == map[] && Staged(w, cfg, result).Keys == {}
  {
    NamesMatch(w, cfg, result);
    AllFailedReadNothing(cfg, Unretained(w, result), suppressed);
  }

  lemma NamesMatch(w: World, cfg: Config, items: map<string, Item>)
    requires ItemsOk(w, cfg, items)
    ensures forall n :: n in items ==> items[n].reg.name == n
  {
    hide Linked;
    forall n | n in items ensures items[n].reg.name == n {
      assert ItemOk(w, cfg, n, items[n]);
    }
  }

  lemma ObserveNothing(w: World)
    ensures Observe(w, {}, map[]) == w
  {}

  lemma NothingAhead(cfg: Config, items: map<string, Item>)
    ensures RestOk(cfg, []) && Ahead(cfg, items, [])
  {}

  lemma FinishSlowKeeps(w: World, cfg: Config, job: Job)
    requires Inv(w, cfg) && w.phase == Slow(job, [])
    ensures Inv(FinishSlow(w, cfg, job), cfg)
  {
    hide ObservationOk, WaitingZero, ItemOk, Suspects, ObserveBatch, Ahead, RestOk, Unretained;
    var relinked := w.gen != job.genBefore;
    var u, v := ObserveBatch(w, cfg, cfg.slow, relinked, job.result), FinishSlow(w, cfg, job);
    ObserveBatchKeeps(w, cfg, cfg.slow, relinked, job.result);
    ItemsElsewhere(w, u, cfg, job.staged);
    NothingAhead(cfg, v.phase.job.staged);
    NextJob(u, v, cfg, v.phase.job, []);
    NothingAhead(cfg, map[]);
  }

  /** The filter's verdict reaches the cache and the record of dropped zeros together. */
  lemma PublishKeeps(w: World, cfg: Config, job: Job)
    requires Inv(w, cfg) && w.phase == Info(job)
    ensures Inv(PublishStaged(w, cfg, job), cfg)
  {
    hide Disturbed, Linked, IsZero, Observable, StreakAfter;
    var dropped := DroppedZeros(cfg, job.data, w.streak, w.failures > job.failuresBefore);
    var u, v := Observe(w, job.staged.Keys, job.staged - dropped), PublishStaged(w, cfg, job);
    SubItems(w, cfg, job.staged, job.staged - dropped);
    ObserveKeeps(w, cfg, job.staged.Keys, job.staged - dropped);
    forall n | n in v.observations ensures ObservationOk(v, cfg, n, v.observations[n]) {
      assert ObservationOk(u, cfg, n, u.observations[n]);
    }
  }

  lemma TouchKeepsJob(w: World, v: World, cfg: Config, a: nat, kind: Kind, job: Job, rest: seq<Register>)
    requires JobOk(w, cfg, job, rest) && v == ClientRead(w, a, kind).(phase := v.phase)
    ensures JobOk(v, cfg, TouchJob(job, a, Foreign(kind, w.gen)), rest)
  {
    hide WaitingZero, RestOk, ItemOk;
    TouchKeepsItems(w, cfg, a, kind, job.result);
    TouchKeepsItems(w, cfg, a, kind, job.staged);
    var u, f := ClientRead(w, a, kind), Foreign(kind, w.gen);
    ItemsElsewhere(u, v, cfg, Touch(job.result, a, f));
    ItemsElsewhere(u, v, cfg, Touch(job.staged, a, f));
  }

  lemma ForeignKeeps(w: World, cfg: Config, a: nat, kind: Kind)
    requires Inv(w, cfg)
    ensures Inv(Step(w, cfg, ForeignRead(a, kind)), cfg)
  {
    hide JobOk, ObservationOk;
    var v := Step(w, cfg, ForeignRead(a, kind));
    SameObservations(w, v, cfg);
    match w.phase
    case Fast(job, rest) =>
      TouchKeepsJob(w, v, cfg, a, kind, job, rest);
      assert Touch(map[], a, Foreign(kind, w.gen)) == map[];
    case Slow(job, rest) => TouchKeepsJob(w, v, cfg, a, kind, job, rest);
    case Info(job) =>
      TouchKeepsJob(w, v, cfg, a, kind, job, []);
      assert Touch(map[], a, Foreign(kind, w.gen)) == map[];
    case _ =>
  }

  lemma BeginKeeps(w: World, cfg: Config)
    requires Inv(w, cfg) && w.phase.Idle? && Distinct(cfg.fast + cfg.slow)
    ensures Inv(BeginPoll(w, cfg), cfg)
  {
    hide Disturbed, Linked, IsZero;
    var v := BeginPoll(w, cfg);
    forall n | n in v.observations
      ensures ObservationOk(v, cfg, n, v.observations[n]) && v.observations[n].poll <= w.polls
    {
      assert ObservationOk(w, cfg, n, w.observations[n]);
    }
    FastAhead(cfg);
  }

  /** Neither marks nor items nor new observations: at most entries are removed, time passes, the
      link moves on, a poll ends. */
  ghost predicate Quiet(w: World, v: World) {
    && v.observations.Keys <= w.observations.Keys
    && (forall n :: n in v.observations ==> v.observations[n] == w.observations[n])
    && v.now >= w.now && v.gen >= w.gen && v.polls == w.polls && v.dropped == w.dropped
    && v.clientGen == w.clientGen && v.retained == w.retained
    && (v.phase == w.phase || v.phase.Idle?)
  }

  lemma QuietKeeps(w: World, v: World, cfg: Config)
    requires Inv(w, cfg) && Quiet(w, v)
    ensures Inv(v, cfg)
  {
    hide Disturbed, IsZero, RestOk, Ahead;
    forall n | n in v.observations ensures ObservationOk(v, cfg, n, v.observations[n]) {
      assert ObservationOk(w, cfg, n, w.observations[n]);
    }
    if w.phase.Fast? || w.phase.Slow? || w.phase.Info? {
      ItemsElsewhere(w, v, cfg, w.phase.job.result);
      ItemsElsewhere(w, v, cfg, w.phase.job.staged);
    }
  }

  lemma ReadIsOf(w: World, reg: Register, outcome: Outcome)
    ensures ReadOne(w, reg, outcome).1.Some? ==> ReadOne(w, reg, outcome).1.value.reg == reg
  {}

  lemma JobElsewhere(u: World, v: World, cfg: Config, job: Job, rest: seq<Register>)
    requires JobOk(u, cfg, job, rest) && v == u.(phase := v.phase)
    ensures JobOk(v, cfg, job, rest)
  {
    hide WaitingZero, RestOk, Ahead;
    ItemsElsewhere(u, v, cfg, job.result);
    ItemsElsewhere(u, v, cfg, job.staged);
  }

  lemma ReadNextKeeps(w: World, cfg: Config, outcome: Outcome)
    requires Inv(w, cfg)
    ensures Inv(Step(w, cfg, ReadNext(outcome)), cfg)
  {
    hide ItemOk, ObservationOk, WaitingZero, RestOk, JobOk, ReadOne;
    if (w.phase.Fast? || w.phase.Slow?) && w.phase.rest != [] {
      var job, rest := w.phase.job, w.phase.rest;
      var (u, item) := ReadOne(w, rest[0], outcome);
      var v := Step(w, cfg, ReadNext(outcome));
      ReadKeeps(w, cfg, job, rest, outcome);
      ReadMarks(w, rest[0], outcome);
      ReadIsOf(w, rest[0], outcome);
      SameObservations(u, v, cfg);
      JobElsewhere(u, v, cfg, AddItem(job, item), rest[1..]);
    }
  }

  predicate PollEvent(ev: Event) {
    ev.ForeignRead? || ev.StartPoll? || ev.ReadNext? || ev.FinishBatch? || ev.Publish?
  }

  lemma ForgetKeeps(w: World, cfg: Config, names: set<string>)
    requires Inv(w, cfg)
    ensures Inv(Forget(w, names), cfg)
  {
    hide Inv;
    QuietKeeps(w, Forget(w, names), cfg);
  }

  lemma FailedSlowKeeps(w: World, cfg: Config, job: Job, rest: seq<Register>)
    requires Inv(w, cfg) && w.phase == Slow(job, rest) && (!w.connected || w.closing)
    ensures Inv(FailedBatch(w, cfg), cfg)
  {
    hide Names, ObservationOk, WaitingZero, ItemOk, RestOk, Ahead;
    var u, v := Forget(w, Names(cfg.slow)), FailedBatch(w, cfg);
    FewerObservations(w, u, cfg);
    ItemsElsewhere(w, u, cfg, job.staged);
    NothingAhead(cfg, job.staged);
    NothingAhead(cfg, map[]);
    NextJob(u, v, cfg, v.phase.job, []);
  }

  lemma FailedBatchKeeps(w: World, cfg: Config)
    requires Inv(w, cfg)
    ensures Inv(FailedBatch(w, cfg), cfg)
  {
    hide Inv, Forget;
    if w.connected && !w.closing { return; }
    match w.phase
    case Fast(job, rest) => QuietKeeps(w, w.(phase := Idle, success := w.closing), cfg);
    case Slow(job, rest) => FailedSlowKeeps(w, cfg, job, rest);
    case _ =>
  }

  lemma SurroundingsLeave(w: World, ev: Event)
    ensures
      var v := Surroundings(w, ev);
      v == w.(connected := v.connected, closing := v.closing, success := v.success, failures := v.failures,
              slowTick := v.slowTick, now := v.now, gen := v.gen, phase := v.phase)
    ensures Surroundings(w, ev).now >= w.now && Surroundings(w, ev).gen >= w.gen
    ensures Surroundings(w, ev).phase == w.phase || Surroundings(w, ev).phase.Idle?
  {}

  lemma SurroundingsAreQuiet(w: World, ev: Event)
    ensures Quiet(w, Surroundings(w, ev))
  {
    hide Surroundings;
    SurroundingsLeave(w, ev);
  }

  lemma SurroundingsKeep(w: World, cfg: Config, ev: Event)
    requires Inv(w, cfg)
    ensures Inv(Surroundings(w, ev), cfg)
  {
    hide Inv, Surroundings, Quiet;
    SurroundingsAreQuiet(w, ev);
    QuietKeeps(w, Surroundings(w, ev), cfg);
  }

  lemma SkipNextKeeps(w: World, cfg: Config)
    requires Inv(w, cfg)
    ensures Inv(SkipNext(w), cfg)
  {
    hide ItemOk, ObservationOk, WaitingZero, RestOk, JobOk;
    if (w.phase.Fast? || w.phase.Slow?) && w.phase.rest != [] {
      var v := SkipNext(w);
      SameObservations(w, v, cfg);
      FewerAhead(w, v, cfg, w.phase.job, w.phase.rest);
    }
  }

  lemma FewerAhead(u: World, v: World, cfg: Config, job: Job, rest: seq<Register>)
    requires JobOk(u, cfg, job, rest) && v == u.(phase := v.phase) && rest != []
    ensures JobOk(v, cfg, job, rest[1..])
    ensures forall reg :: reg in rest[1..] ==> reg in rest
  {
    hide WaitingZero, ItemOk, ObservationOk;
    RestTail(cfg, rest);
    ItemsElsewhere(u, v, cfg, job.result);
    ItemsElsewhere(u, v, cfg, job.staged);
  }

  lemma QuietEventKeeps(w: World, cfg: Config, ev: Event)
    requires Inv(w, cfg) && !PollEvent(ev)
    ensures Inv(Step(w, cfg, ev), cfg)
  {
    hide Inv, Forget, Overlapping, Surroundings, FailedBatch, SkipNext;
    match ev
    case WriteCommand(name) => ForgetKeeps(w, cfg, {name});
    case RawWrite(address, quantity) => ForgetKeeps(w, cfg, Overlapping(w, address, quantity));
    case FailNext => SkipNextKeeps(w, cfg);
    case FailBatch => FailedBatchKeeps(w, cfg);
    case _ => SurroundingsKeep(w, cfg, ev);
  }

  lemma BatchEventKeeps(w: World, cfg: Config, suppressed: set<nat>)
    requires Inv(w, cfg) && Distinct(cfg.fast + cfg.slow)
    ensures Inv(Step(w, cfg, FinishBatch(suppressed)), cfg)
  {
    hide Inv, FinishFast, FinishSlow;
    if w.phase.Fast? && w.phase.rest == [] {
      FinishFastKeeps(w, cfg, w.phase.job, suppressed);
    } else if w.phase.Slow? && w.phase.rest == [] {
      FinishSlowKeeps(w, cfg, w.phase.job);
    }
  }

  lemma StepKeeps(w: World, cfg: Config, ev: Event)
    requires Inv(w, cfg) && Distinct(cfg.fast + cfg.slow)
    ensures Inv(Step(w, cfg, ev), cfg)
  {
    hide Inv, Step;
    match ev
    case ForeignRead(a, kind) => ForeignKeeps(w, cfg, a, kind);
    case StartPoll => StartEventKeeps(w, cfg);
    case ReadNext(outcome) => ReadNextKeeps(w, cfg, outcome);
    case FinishBatch(suppressed) => BatchEventKeeps(w, cfg, suppressed);
    case Publish => PublishEventKeeps(w, cfg);
    case _ => QuietEventKeeps(w, cfg, ev);
  }

  lemma StartEventKeeps(w: World, cfg: Config)
    requires Inv(w, cfg) && Distinct(cfg.fast + cfg.slow)
    ensures Inv(Step(w, cfg, StartPoll), cfg)
  {
    hide Inv, BeginPoll;
    if w.phase.Idle? { BeginKeeps(w, cfg); }
  }

  lemma PublishEventKeeps(w: World, cfg: Config)
    requires Inv(w, cfg)
    ensures Inv(Step(w, cfg, Publish), cfg)
  {
    hide Inv, PublishStaged;
    if w.phase.Info? { PublishKeeps(w, cfg, w.phase.job); }
  }

  lemma {:induction false} EveryRunKeeps(cfg: Config, run: seq<Event>)
    requires Distinct(cfg.fast + cfg.slow)
    ensures Inv(After(cfg, run), cfg)
  {
    hide Inv, Step;
    if run == [] {
      StartOk(cfg);
    } else {
      EveryRunKeeps(cfg, run[..|run| - 1]);
      StepKeeps(After(cfg, run[..|run| - 1]), cfg, run[|run| - 1]);
    }
  }

  lemma StartOk(cfg: Config)
    ensures Inv(START, cfg)
  {}

  /** At every point of every run, between the awaits of a poll included, a value the proxy may
      serve is a number some poll read from its own register, tagged with the present connection
      and within its time to live; it is neither a zero the device-failure filter dropped nor one
      still waiting for the filter. And it is the device's own value (no keep-last substitute)
      read on the present connection EXACTLY when no other task's read of the same address, between
      the poll's read and its observation, disturbed the client's marks. */
  lemma ServedValuesAreSound(cfg: Config, run: seq<Event>, n: string)
    requires Distinct(cfg.fast + cfg.slow) && n in Served(After(cfg, run), cfg)
    ensures
      var w := After(cfg, run);
      var o := Served(w, cfg)[n];
      && o.item.reg.name == n && IsNumber(o.item.v) && IsFinite(o.item.v) && o.item.kind != Rejected
      && o.tag == w.gen && 0.0 <= w.now - o.at <= Ttl(cfg, o.item.reg)
      && (WaitingZero(cfg, n, o.item.v) ==>
            (n, o.poll) !in w.dropped && !(o.poll == w.polls && (w.phase.Fast? || w.phase.Slow? || w.phase.Info?)))
      && ((o.item.kind == Genuine && o.item.gen == w.gen) <==> !Disturbed(o.item))
  {
    hide Disturbed, IsZero, Linked, RestOk, Ahead, ItemsOk;
    EveryRunKeeps(cfg, run);
    var w := After(cfg, run);
    assert ObservationOk(w, cfg, n, w.observations[n]);
  }

  /** In particular where nobody else reads the address in between. */
  lemma UndisturbedValuesAreGenuine(cfg: Config, run: seq<Event>, n: string)
    requires Distinct(cfg.fast + cfg.slow) && n in Served(After(cfg, run), cfg)
    requires Served(After(cfg, run), cfg)[n].item.since == []
    ensures
      var o := Served(After(cfg, run), cfg)[n];
      o.item.kind == Genuine && o.item.gen == After(cfg, run).gen
  {
    ServedValuesAreSound(cfg, run, n);
  }
}
