/** The two ways a read by another task breaks what a poll observes (modbus_coordinator.py): runs
    whose every read is answered by a device and filtered by the client. */
module DisturbedReads {
  import opened Registers
  import opened QualityFilter
  import opened PollCoordinator
  import opened PolledCache

  const BATTERY_SOC := Register(514, "battery_soc", UINT16, 1, RO, BATTERY, false)
  const DC_CHARGE := Register(1046, "total_dc_charge", FLOAT32, 2, RO, ENERGY, true)

  /** One fast register and two slow ones that no single request can fetch. */
  const MONITORED := Config([BATTERY_SOC], [CHARGE_LIMIT, DC_CHARGE], {"battery_soc"}, 5.0)

  const HALF_FULL := IntV(55)
  const ZERO := FloatV(Float32(0, 0, 0, 0))
  const TWO_KILOWATT := FloatV(Float32(68, 250, 0, 0))
  const NOT_A_NUMBER := FloatV(Float32(127, 192, 0, 0))

  // ---------- what the guards make of these answers ----------

  lemma {:induction false} PowersAdd(m: nat, n: nat)
    ensures Pow2(m + n) == Pow2(m) * Pow2(n)
  {
    if n > 0 { PowersAdd(m, n - 1); }
  }

  lemma Ratio(a: real, p: real, b: real)
    requires p > 0.0 && b > 0.0
    ensures a * p / (p * b) == a / b
  {
    var q := a / b;
    assert q * b == a;
    assert q * (p * b) == a * p;
  }

  lemma SmallPower()
    ensures Pow2(13) == 8192.0
  {
    assert Pow2(4) == 16.0;
    PowersAdd(4, 4);
    PowersAdd(8, 4);
    PowersAdd(12, 1);
    assert Pow2(1) == 2.0;
  }

  lemma TwoKilowattIs()
    ensures RealOf(TWO_KILOWATT) == 2000.0
  {
    hide Pow2;
    assert RealOf(TWO_KILOWATT) == 16384000.0 * Pow2(137) / Pow2(150);
    hide RealOf, RealOfFloat;
    SmallPower();
    PowersAdd(137, 13);
    Ratio(16384000.0, Pow2(137), Pow2(13));
    assert 16384000.0 / 8192.0 == 2000.0;
  }

  lemma ZeroIs()
    ensures RealOf(ZERO) == 0.0
  {
    hide Pow2;
  }

  lemma InRange(reg: Register, v: Value)
    requires reg.address in {514, 1038, 1046} && IsNumber(v) && IsFinite(v) && 0.0 <= RealOf(v) <= DEFAULT_LIMIT
    ensures Passes(reg, v)
  {
    hide RealOf;
  }

  lemma NoNumberFails(reg: Register)
    ensures !Passes(reg, NOT_A_NUMBER)
  {
    assert IsNumber(NOT_A_NUMBER) && !IsFinite(NOT_A_NUMBER);
    hide IsNumber, IsFinite, IsSentinel, OutOfRange;
  }

  lemma ZeroPasses(reg: Register)
    requires reg.address in {514, 1038, 1046}
    ensures Passes(reg, ZERO)
  {
    ZeroIs();
    hide RealOf, Passes;
    assert IsNumber(ZERO) && IsFinite(ZERO);
    InRange(reg, ZERO);
  }

  lemma TwoKilowattPasses(reg: Register)
    requires reg.address in {514, 1038, 1046}
    ensures Passes(reg, TWO_KILOWATT)
  {
    TwoKilowattIs();
    hide RealOf, Passes;
    assert IsNumber(TWO_KILOWATT) && IsFinite(TWO_KILOWATT);
    InRange(reg, TWO_KILOWATT);
  }

  lemma HalfFullPasses(reg: Register)
    requires reg.address in {514, 1038, 1046}
    ensures Passes(reg, HALF_FULL)
  {
    assert IsNumber(HALF_FULL) && IsFinite(HALF_FULL) && RealOf(HALF_FULL) == 55.0;
    hide RealOf, Passes;
    InRange(reg, HALF_FULL);
  }

  /** The guards let these answers through, and refuse NaN. */
  lemma Guarded()
    ensures Passes(BATTERY_SOC, HALF_FULL) && Passes(CHARGE_LIMIT, TWO_KILOWATT)
    ensures Passes(CHARGE_LIMIT, ZERO) && Passes(DC_CHARGE, ZERO) && !Passes(CHARGE_LIMIT, NOT_A_NUMBER)
  {
    hide Passes;
    HalfFullPasses(BATTERY_SOC);
    TwoKilowattPasses(CHARGE_LIMIT);
    ZeroPasses(CHARGE_LIMIT);
    ZeroPasses(DC_CHARGE);
    NoNumberFails(CHARGE_LIMIT);
  }

  // ---------- one step of a run ----------

  /** The run plays to this state, every read of it answered. */
  ghost predicate Plays(turns: seq<Turn>, p: Played) {
    Answered(MONITORED, turns, KeepLast) && Play(MONITORED, turns, KeepLast) == p
  }

  lemma OneMore(turns: seq<Turn>, p: Played, t: Turn) returns (longer: seq<Turn>, q: Played)
    requires Plays(turns, p) && Follows(p, t, KeepLast)
    ensures longer == turns + [t] && Plays(longer, q)
    ensures q.world == Step(p.world, MONITORED, t.ev)
    ensures t.answer.Some? ==>
      q.memo == Accept(p.memo, t.answer.value.reg, t.answer.value.v, p.world.gen, KeepLast).0
    ensures t.answer.None? ==> q.memo == p.memo
  {
    hide Follows, Step, Accept;
    longer, q := turns + [t], Next(p, MONITORED, t, KeepLast);
    assert longer[..|turns|] == turns;
  }

  lemma OneTurn(turns: seq<Turn>, p: Played, t: Turn, ev: Event) returns (longer: seq<Turn>, q: Played)
    requires Plays(turns, p) && Follows(p, t, KeepLast) && t.ev == ev
    ensures longer == turns + [t] && Plays(longer, q) && q.world == Step(p.world, MONITORED, ev)
  {
    hide Step, Accept, Passes, Follows, Plays, LimitRead, LimitAlone, AtSlow, DueRegister, OutcomeOf, Play, Answered;
    longer, q := OneMore(turns, p, t);
  }

  function Reading(reg: Register, v: Value, outcome: Outcome): Turn {
    Turn(ReadNext(outcome), Some(Asked(reg, v)))
  }

  function Elsewhere(reg: Register, v: Value, kind: Kind): Turn {
    Turn(ForeignRead(reg.address, kind), Some(Asked(reg, v)))
  }

  function Happens(ev: Event): Turn { Turn(ev, None) }

  const READ_SOC := Reading(BATTERY_SOC, HALF_FULL, Got(HALF_FULL, Genuine))
  const READ_LIMIT := Reading(CHARGE_LIMIT, TWO_KILOWATT, Got(TWO_KILOWATT, Genuine))
  const READ_SUBSTITUTE := Reading(CHARGE_LIMIT, NOT_A_NUMBER, Got(TWO_KILOWATT, Substituted))
  const READ_CHARGE := Reading(DC_CHARGE, ZERO, Got(ZERO, Genuine))
  const ENDING: seq<Turn> := [READ_CHARGE, Happens(FinishBatch({})), Happens(Publish), Happens(EndPoll)]

  /** The link is up and a poll may start, at a slow tick. */
  predicate Ready(w: World) {
    w.phase.Idle? && w.connected && !w.closing && w.slowTick == SLOW_TICKS - 1 && w.retained == {}
  }

  /** The slow batch is about to read its first register. */
  predicate AtSlow(w: World) {
    && w.phase.Slow? && w.phase.rest == [CHARGE_LIMIT, DC_CHARGE] && w.connected && !w.closing && w.retained == {}
    && w.phase.job.result == map[] && w.phase.job.staged == map[]
  }

  lemma FastBatch(w: World)
    requires Ready(w)
    ensures
      var u := Step(w, MONITORED, StartPoll);
      var v := Step(u, MONITORED, ReadNext(Got(HALF_FULL, Genuine)));
      && u.connected && !u.closing && u.phase.Fast? && u.phase.rest == [BATTERY_SOC] && u.gen == w.gen
      && AtSlow(Step(v, MONITORED, FinishBatch({}))) && Step(v, MONITORED, FinishBatch({})).gen == w.gen
      && Step(v, MONITORED, FinishBatch({})).now == w.now
  {
    var u := Step(w, MONITORED, StartPoll);
    assert u.phase == Fast(Job(w.gen, w.failures, map[], map[], map[]), [BATTERY_SOC]);
    SocRead(u);
    hide Step;
    SocFinished(Step(u, MONITORED, ReadNext(Got(HALF_FULL, Genuine))));
  }

  lemma SocRead(u: World)
    requires u.phase.Fast? && u.phase.rest == [BATTERY_SOC] && u.phase.job.result == map[] && u.retained == {}
    ensures var v := Step(u, MONITORED, ReadNext(Got(HALF_FULL, Genuine)));
      && v.phase.Fast? && v.phase.rest == [] && v.retained == {}
      && v.phase.job == u.phase.job.(result := map["battery_soc" := Item(BATTERY_SOC, HALF_FULL, u.gen, Genuine, [])])
      && v == u.(clientGen := v.clientGen, phase := v.phase)
  {
    hide FinishFast, FinishSlow, PublishStaged, BeginPoll, TouchPhase, Forget;
    assert [BATTERY_SOC][1..] == [];
  }

  lemma SocFinished(v: World)
    requires v.phase.Fast? && v.phase.rest == [] && v.retained == {} && v.phase.job.genBefore == v.gen
    requires v.slowTick == SLOW_TICKS - 1 && v.connected && !v.closing && v.phase.job.staged == map[]
    requires v.phase.job.result.Keys == {"battery_soc"}
    requires v.phase.job.result["battery_soc"].reg == BATTERY_SOC && v.phase.job.result["battery_soc"].v == HALF_FULL
    ensures var x := Step(v, MONITORED, FinishBatch({})); AtSlow(x) && x.gen == v.gen && x.now == v.now
  {
    var result := v.phase.job.result;
    assert Unretained(v, result) == result;
    assert Suspects(MONITORED, result) == {} && Staged(v, MONITORED, result) == map[];
    assert BATTERY_SOC in MONITORED.fast && "battery_soc" in result;
    BatchLeaves(v, MONITORED, MONITORED.fast, false, result);
    hide ObserveBatch, Staged, Unretained, Values;
  }

  /** The poll has read the limit, and another task has read it since. */
  predicate LimitRead(w: World, item: Item) {
    && w.phase.Slow? && w.phase.rest == [DC_CHARGE] && w.connected && !w.closing && w.retained == {}
    && w.phase.job.result == map[CHARGE_LIMIT.name := item] && w.phase.job.staged == map[]
    && item.reg == CHARGE_LIMIT && item.v == TWO_KILOWATT
    && CHARGE_LIMIT.address in w.clientGen && w.clientGen[CHARGE_LIMIT.address] == w.gen
  }

  /** The poll has read the limit, which nobody has read since. */
  predicate LimitAlone(w: World, item: Item) {
    && w.phase.Slow? && w.phase.rest == [DC_CHARGE] && w.connected && !w.closing
    && w.retained <= {CHARGE_LIMIT.address}
    && w.phase.job.result == map[CHARGE_LIMIT.name := item] && w.phase.job.staged == map[]
    && item.reg == CHARGE_LIMIT && item.v == TWO_KILOWATT && item.since == []
  }

  lemma ReadFirstSlow(w: World, kind: Kind)
    requires AtSlow(w) && kind != Rejected
    ensures var v := Step(w, MONITORED, ReadNext(Got(TWO_KILOWATT, kind)));
      LimitAlone(v, Item(CHARGE_LIMIT, TWO_KILOWATT, w.gen, kind, [])) && v.gen == w.gen
  {
    hide FinishFast, FinishSlow, PublishStaged, BeginPoll, TouchPhase, Forget;
    assert [CHARGE_LIMIT, DC_CHARGE][1..] == [DC_CHARGE];
  }

  lemma LinkRenewed(w: World, item: Item)
    requires LimitAlone(w, item)
    ensures var v := Step(w, MONITORED, Reconnect); LimitAlone(v, item) && v.gen == w.gen + 1
  {}

  lemma LimitAloneUp(w: World, item: Item)
    requires LimitAlone(w, item)
    ensures w.connected && !w.closing
  {}

  lemma ReadElsewhere(w: World, item: Item)
    requires LimitAlone(w, item)
    ensures var v, longer := Step(w, MONITORED, ForeignRead(CHARGE_LIMIT.address, Genuine)),
                             item.(since := [Foreign(Genuine, w.gen)]);
      LimitRead(v, longer) && v.gen == w.gen
  {
    hide FinishFast, FinishSlow, PublishStaged, BeginPoll, Forget, ReadOne;
    var f := Foreign(Genuine, w.gen);
    assert item.since + [f] == [f];
    assert Touch(map[], CHARGE_LIMIT.address, f) == map[];
    assert Touch(w.phase.job.result, CHARGE_LIMIT.address, f)
        == map[CHARGE_LIMIT.name := item.(since := item.since + [f])];
  }

  /** From there the batch, the poll and its report end, and the item is served. */
  lemma EndingServes(w: World, item: Item)
    requires LimitRead(w, item)
    ensures
      var u := Step(w, MONITORED, ReadNext(Got(ZERO, Genuine)));
      var v := Step(u, MONITORED, FinishBatch({}));
      var x := Step(Step(v, MONITORED, Publish), MONITORED, EndPoll);
      && x.gen == w.gen && CHARGE_LIMIT.name in Served(x, MONITORED)
      && Served(x, MONITORED)[CHARGE_LIMIT.name].item == item
  {
    ChargeRead(w, item);
    var u := Step(w, MONITORED, ReadNext(Got(ZERO, Genuine)));
    hide Step;
    SlowFinished(u, item);
    var v := Step(u, MONITORED, FinishBatch({}));
    Reported(v, item);
  }

  lemma ChargeRead(w: World, item: Item)
    requires LimitRead(w, item)
    ensures var u := Step(w, MONITORED, ReadNext(Got(ZERO, Genuine)));
      && u.phase.Slow? && u.phase.rest == [] && u.connected && !u.closing && u.retained == {} && u.gen == w.gen
      && CHARGE_LIMIT.name in u.phase.job.result && u.phase.job.result[CHARGE_LIMIT.name] == item
      && u.phase.job.staged == map[] && TagOf(u, CHARGE_LIMIT) == w.gen
      && (forall n :: n in u.phase.job.result ==> n == CHARGE_LIMIT.name || n == DC_CHARGE.name)
  {
    hide FinishFast, FinishSlow, PublishStaged, BeginPoll, TouchPhase, Forget;
    assert [DC_CHARGE][1..] == [];
  }

  lemma SlowEnds(u: World)
    requires u.phase.Slow? && u.phase.rest == []
    ensures Step(u, MONITORED, FinishBatch({})) == FinishSlow(u, MONITORED, u.phase.job)
  {
    hide FinishFast, FinishSlow, PublishStaged, BeginPoll, TouchPhase, Forget, ReadOne;
  }

  lemma SlowFinished(u: World, item: Item)
    requires u.phase.Slow? && u.phase.rest == [] && u.retained == {} && u.phase.job.staged == map[]
    requires item.reg == CHARGE_LIMIT && item.v == TWO_KILOWATT
    requires CHARGE_LIMIT.name in u.phase.job.result && u.phase.job.result[CHARGE_LIMIT.name] == item
    requires forall n :: n in u.phase.job.result ==> n == CHARGE_LIMIT.name || n == DC_CHARGE.name
    ensures var v := Step(u, MONITORED, FinishBatch({}));
      && v.phase.Info? && v.phase.job.staged == map[] && CHARGE_LIMIT.name in v.observations
      && v.observations[CHARGE_LIMIT.name] == Observation(item, u.now, TagOf(u, CHARGE_LIMIT), u.polls)
      && v == u.(observations := v.observations, lastSlow := v.lastSlow, phase := v.phase)
  {
    hide Step, ObserveBatch, Staged, Unretained, Values, TagOf, Names;
    SlowEnds(u);
    SlowObserved(u, u.gen != u.phase.job.genBefore, u.phase.job.result, item);
  }

  lemma SlowObserved(u: World, relinked: bool, result: map<string, Item>, item: Item)
    requires u.retained == {} && item.reg == CHARGE_LIMIT && item.v == TWO_KILOWATT
    requires CHARGE_LIMIT.name in result && result[CHARGE_LIMIT.name] == item
    requires forall n :: n in result ==> n == CHARGE_LIMIT.name || n == DC_CHARGE.name
    ensures var v := ObserveBatch(u, MONITORED, MONITORED.slow, relinked, result);
      && v == u.(observations := v.observations) && CHARGE_LIMIT.name in v.observations
      && v.observations[CHARGE_LIMIT.name] == Observation(item, u.now, TagOf(u, CHARGE_LIMIT), u.polls)
      && Staged(u, MONITORED, result) == map[]
  {
    assert Unretained(u, result) == result;
    assert Suspects(MONITORED, result) == {};
    BatchLeaves(u, MONITORED, MONITORED.slow, relinked, result);
    assert CHARGE_LIMIT in MONITORED.slow && CHARGE_LIMIT.name in Names(MONITORED.slow) - {};
    hide Names, Suspects, Unretained;
  }

  lemma Reported(v: World, item: Item)
    requires v.phase.Info? && v.phase.job.staged == map[] && CHARGE_LIMIT.name in v.observations
    requires v.observations[CHARGE_LIMIT.name] == Observation(item, v.now, v.gen, v.polls) && item.reg == CHARGE_LIMIT
    requires v.connected && !v.closing
    ensures var x := Step(Step(v, MONITORED, Publish), MONITORED, EndPoll);
      && x.gen == v.gen && CHARGE_LIMIT.name in Served(x, MONITORED)
      && Served(x, MONITORED)[CHARGE_LIMIT.name].item == item
  {
    var dropped := DroppedZeros(MONITORED, v.phase.job.data, v.streak, v.failures > v.phase.job.failuresBefore);
    assert v.phase.job.staged.Keys == {} && v.phase.job.staged - dropped == map[];
    ObserveNothing(v);
    hide StreakAfter, DroppedZeros, Observe;
    var y := Step(v, MONITORED, Publish);
    assert y == v.(streak := y.streak, phase := Reporting, dropped := y.dropped);
    assert y.phase.Reporting?;
    var x := y.(phase := Idle, success := true);
    assert Step(y, MONITORED, EndPoll) == x;
    hide Step;
  }

  // ---------- the runs ----------

  const OLD_CONNECTION_TURNS: seq<Turn> :=
    [Happens(StartPoll), READ_SOC, Happens(FinishBatch({})), READ_LIMIT, Happens(Reconnect),
     Elsewhere(CHARGE_LIMIT, ZERO, Genuine)] + ENDING

  const SUBSTITUTE_TURNS: seq<Turn> :=
    [Elsewhere(CHARGE_LIMIT, TWO_KILOWATT, Genuine), Happens(StartPoll), READ_SOC, Happens(FinishBatch({})),
     READ_SUBSTITUTE, Elsewhere(CHARGE_LIMIT, ZERO, Genuine)] + ENDING

  lemma EventFollows(p: Played, ev: Event)
    requires !ev.ReadNext? && !ev.ForeignRead?
    ensures Follows(p, Happens(ev), KeepLast)
  {
    hide OutcomeOf, KindOf;
  }

  lemma GenuineFollows(p: Played, reg: Register, v: Value)
    requires p.world.connected && !p.world.closing && DueRegister(p.world) == Some(reg) && Passes(reg, v)
    ensures Follows(p, Reading(reg, v, Got(v, Genuine)), KeepLast)
  {
    hide Passes;
  }

  lemma ElsewhereFollows(p: Played, reg: Register, v: Value)
    requires p.world.connected && !p.world.closing && Passes(reg, v)
    ensures Follows(p, Elsewhere(reg, v, Genuine), KeepLast)
  {
    hide Passes;
  }

  lemma LimitReadDue(w: World, item: Item)
    requires LimitRead(w, item)
    ensures w.connected && !w.closing && DueRegister(w) == Some(DC_CHARGE)
  {}

  lemma AtSlowDue(w: World)
    requires AtSlow(w)
    ensures w.connected && !w.closing && DueRegister(w) == Some(CHARGE_LIMIT)
  {}

  /** The end of both runs, once another task has read the limit. */
  lemma Ends(turns: seq<Turn>, p: Played, item: Item)
    requires Plays(turns, p) && LimitRead(p.world, item)
    ensures
      var w := Play(MONITORED, turns + ENDING, KeepLast).world;
      && Answered(MONITORED, turns + ENDING, KeepLast) && w.gen == p.world.gen
      && CHARGE_LIMIT.name in Served(w, MONITORED)
      && Served(w, MONITORED)[CHARGE_LIMIT.name].item == item
  {
    hide Step, Accept, Passes, Served, LimitRead, Follows, DueRegister;
    Guarded();
    LimitReadDue(p.world, item);
    GenuineFollows(p, DC_CHARGE, ZERO);
    EndingServes(p.world, item);
    hide Plays;
    var t1, p1 := OneMore(turns, p, READ_CHARGE);
    var t4, p4 := PollEnds(t1, p1);
    assert turns + ENDING == t4;
    PlaysIs(t4, p4);
  }

  lemma PlaysIs(turns: seq<Turn>, p: Played)
    requires Plays(turns, p)
    ensures Answered(MONITORED, turns, KeepLast) && Play(MONITORED, turns, KeepLast) == p
  {}

  lemma PollEnds(turns: seq<Turn>, p: Played) returns (longer: seq<Turn>, q: Played)
    requires Plays(turns, p)
    ensures longer == turns + [Happens(FinishBatch({})), Happens(Publish), Happens(EndPoll)] && Plays(longer, q)
    ensures q.world == Step(Step(Step(p.world, MONITORED, FinishBatch({})), MONITORED, Publish), MONITORED, EndPoll)
  {
    hide Step, Accept, Follows, Plays;
    EventFollows(p, FinishBatch({}));
    var t1, p1 := OneMore(turns, p, Happens(FinishBatch({})));
    EventFollows(p1, Publish);
    var t2, p2 := OneMore(t1, p1, Happens(Publish));
    EventFollows(p2, EndPoll);
    longer, q := OneMore(t2, p2, Happens(EndPoll));
  }

  lemma StartsFast(w: World)
    requires Ready(w)
    ensures var u := Step(w, MONITORED, StartPoll);
      u.connected && !u.closing && DueRegister(u) == Some(BATTERY_SOC)
  {
    hide Step;
    FastBatch(w);
  }

  /** The poll up to its slow batch. */
  lemma Begins(turns: seq<Turn>, p: Played) returns (longer: seq<Turn>, q: Played)
    requires Plays(turns, p) && Ready(p.world)
    ensures longer == turns + [Happens(StartPoll), READ_SOC, Happens(FinishBatch({}))] && Plays(longer, q)
    ensures AtSlow(q.world) && q.world.gen == p.world.gen
    ensures exists gen: nat :: q.memo == Accept(p.memo, BATTERY_SOC, HALF_FULL, gen, KeepLast).0
  {
    hide Step, Accept, Passes, Follows, AtSlow, Ready, Plays, DueRegister;
    HalfFullPasses(BATTERY_SOC);
    FastBatch(p.world);
    StartsFast(p.world);
    EventFollows(p, StartPoll);
    var t1, p1 := OneMore(turns, p, Happens(StartPoll));
    GenuineFollows(p1, BATTERY_SOC, HALF_FULL);
    var t2, p2 := OneMore(t1, p1, READ_SOC);
    EventFollows(p2, FinishBatch({}));
    longer, q := OneMore(t2, p2, Happens(FinishBatch({})));
  }

  /** The limit's old value is in the slow batch, and the link and another task's read come next. */
  lemma Relinked(turns: seq<Turn>, p: Played) returns (longer: seq<Turn>, q: Played, item: Item)
    requires Plays(turns, p) && AtSlow(p.world)
    ensures longer == turns + [READ_LIMIT, Happens(Reconnect), Elsewhere(CHARGE_LIMIT, ZERO, Genuine)]
    ensures Plays(longer, q) && LimitRead(q.world, item) && q.world.gen == p.world.gen + 1
    ensures item.gen == p.world.gen && item.v == TWO_KILOWATT
  {
    hide Step, Accept, Passes, Follows, Plays, LimitRead, LimitAlone, AtSlow, DueRegister, OutcomeOf, Play, Answered;
    var alone := Item(CHARGE_LIMIT, TWO_KILOWATT, p.world.gen, Genuine, []);
    Guarded();
    AtSlowDue(p.world);
    ReadFirstSlow(p.world, Genuine);
    GenuineFollows(p, CHARGE_LIMIT, TWO_KILOWATT);
    var t1, p1 := OneTurn(turns, p, READ_LIMIT, ReadNext(Got(TWO_KILOWATT, Genuine)));
    LinkRenewed(p1.world, alone);
    EventFollows(p1, Reconnect);
    var t2, p2 := OneTurn(t1, p1, Happens(Reconnect), Reconnect);
    longer, q := AnotherReads(t2, p2, alone);
    item := alone.(since := [Foreign(Genuine, p2.world.gen)]);
  }

  /** Another task reads the limit, and the device answers zero. */
  lemma AnotherReads(turns: seq<Turn>, p: Played, item: Item) returns (longer: seq<Turn>, q: Played)
    requires Plays(turns, p) && LimitAlone(p.world, item)
    ensures longer == turns + [Elsewhere(CHARGE_LIMIT, ZERO, Genuine)] && Plays(longer, q)
    ensures LimitRead(q.world, item.(since := [Foreign(Genuine, p.world.gen)])) && q.world.gen == p.world.gen
  {
    hide Step, Accept, Passes, Follows, Plays, LimitRead, LimitAlone, AtSlow, DueRegister, OutcomeOf, Play, Answered;
    Guarded();
    LimitAloneUp(p.world, item);
    ElsewhereFollows(p, CHARGE_LIMIT, ZERO);
    ReadElsewhere(p.world, item);
    longer, q := OneTurn(turns, p, Elsewhere(CHARGE_LIMIT, ZERO, Genuine), ForeignRead(CHARGE_LIMIT.address, Genuine));
  }

  lemma NothingYet()
    ensures Plays([], Played(START, EMPTY_MEMO)) && Ready(START) && START.gen == 1
  {}

  /** A value read on an earlier connection is served as if it were from the present one: while the
      slow batch went on to its next register the link was re-established and another task read the
      limit, which is 0 W by now, so the poll's older 2000 W are tagged with the new connection. */
  lemma OldConnectionIsServed()
    ensures Answered(MONITORED, OLD_CONNECTION_TURNS, KeepLast)
    ensures
      var w := Play(MONITORED, OLD_CONNECTION_TURNS, KeepLast).world;
      && CHARGE_LIMIT.name in Served(w, MONITORED) && w.gen == 2
      && Served(w, MONITORED)[CHARGE_LIMIT.name].item.gen == 1
      && Served(w, MONITORED)[CHARGE_LIMIT.name].item.v == TWO_KILOWATT
  {
    NothingYet();
    hide Plays, AtSlow, LimitRead, Served, Ready, Answered, Play;
    var t3, p3 := Begins([], Played(START, EMPTY_MEMO));
    var t6, p6, item := Relinked(t3, p3);
    Ends(t6, p6, item);
    assert t6 + ENDING == OLD_CONNECTION_TURNS;
  }

  lemma FirstElsewhere()
    ensures Ready(Step(START, MONITORED, ForeignRead(CHARGE_LIMIT.address, Genuine)))
  {}

  /** After one good read of the limit the filter lets the remembered value stand in for a NaN. */
  lemma Remembered(m: Memo, gen: nat, later: nat)
    requires m == Accept(EMPTY_MEMO, CHARGE_LIMIT, TWO_KILOWATT, gen, KeepLast).0
    ensures OutcomeOf(Accept(m, BATTERY_SOC, HALF_FULL, later, KeepLast).0, CHARGE_LIMIT, NOT_A_NUMBER, KeepLast)
         == Got(TWO_KILOWATT, Substituted)
  {
    Guarded();
    hide Passes;
  }

  lemma ReadFollows(p: Played, reg: Register, v: Value, outcome: Outcome)
    requires p.world.connected && !p.world.closing && DueRegister(p.world) == Some(reg)
    requires outcome == OutcomeOf(p.memo, reg, v, KeepLast)
    ensures Follows(p, Reading(reg, v, outcome), KeepLast)
  {
    hide OutcomeOf;
  }

  /** The remembered limit stands in for a NaN, and another task's good read comes next. */
  lemma StoodIn(turns: seq<Turn>, p: Played) returns (longer: seq<Turn>, q: Played, item: Item)
    requires Plays(turns, p) && AtSlow(p.world)
    requires OutcomeOf(p.memo, CHARGE_LIMIT, NOT_A_NUMBER, KeepLast) == Got(TWO_KILOWATT, Substituted)
    ensures longer == turns + [READ_SUBSTITUTE, Elsewhere(CHARGE_LIMIT, ZERO, Genuine)] && Plays(longer, q)
    ensures LimitRead(q.world, item) && item.kind == Substituted && item.v == TWO_KILOWATT
  {
    hide Step, Accept, Passes, Follows, Plays, LimitRead, LimitAlone, AtSlow, DueRegister, OutcomeOf, Play, Answered;
    var alone := Item(CHARGE_LIMIT, TWO_KILOWATT, p.world.gen, Substituted, []);
    AtSlowDue(p.world);
    ReadFirstSlow(p.world, Substituted);
    ReadFollows(p, CHARGE_LIMIT, NOT_A_NUMBER, Got(TWO_KILOWATT, Substituted));
    var t1, p1 := OneTurn(turns, p, READ_SUBSTITUTE, ReadNext(Got(TWO_KILOWATT, Substituted)));
    longer, q := AnotherReads(t1, p1, alone);
    item := alone.(since := [Foreign(Genuine, p1.world.gen)]);
  }

  lemma FirstTurn() returns (turns: seq<Turn>, p: Played)
    ensures turns == [Elsewhere(CHARGE_LIMIT, TWO_KILOWATT, Genuine)] && Plays(turns, p) && Ready(p.world)
    ensures p.memo == Accept(EMPTY_MEMO, CHARGE_LIMIT, TWO_KILOWATT, 1, KeepLast).0
  {
    NothingYet();
    FirstElsewhere();
    TwoKilowattPasses(CHARGE_LIMIT);
    hide Step, Accept, Passes, Follows, Plays, Ready;
    var p0 := Played(START, EMPTY_MEMO);
    ElsewhereFollows(p0, CHARGE_LIMIT, TWO_KILOWATT);
    turns, p := OneMore([], p0, Elsewhere(CHARGE_LIMIT, TWO_KILOWATT, Genuine));
  }

  /** A remembered value that stood in for a NaN is served as an observation: while the slow batch
      went on, another task's good read of the limit cleared the mark of the substitution. The
      cache then serves the 2000 W of earlier where the device has just answered 0 W. */
  lemma SubstituteIsServed()
    ensures Answered(MONITORED, SUBSTITUTE_TURNS, KeepLast)
    ensures
      var w := Play(MONITORED, SUBSTITUTE_TURNS, KeepLast).world;
      && CHARGE_LIMIT.name in Served(w, MONITORED)
      && Served(w, MONITORED)[CHARGE_LIMIT.name].item.kind == Substituted
      && Served(w, MONITORED)[CHARGE_LIMIT.name].item.v == TWO_KILOWATT
  {
    hide Plays, AtSlow, LimitRead, Served, Ready, Answered, Play, OutcomeOf, Accept, Step;
    var t1, p1 := FirstTurn();
    var t4, p4 := Begins(t1, p1);
    var later: nat :| p4.memo == Accept(p1.memo, BATTERY_SOC, HALF_FULL, later, KeepLast).0;
    Remembered(p1.memo, 1, later);
    var t6, p6, item := StoodIn(t4, p4);
    Ends(t6, p6, item);
    assert t6 + ENDING == SUBSTITUTE_TURNS;
  }
}
