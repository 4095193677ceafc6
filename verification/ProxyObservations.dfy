/** The coordinator's own bookkeeping between the awaits of a poll, updated in place
    (modbus_coordinator.py), against the functions of the poll state machine. */
module ProxyObservations {
  import opened Basics
  import opened Registers
  import opened QualityFilter
  import opened PollCoordinator

  /** The values of a batch are those of its registers. */
  ghost predicate Belongs(regs: seq<Register>, items: map<string, Item>) {
    forall i :: 0 <= i < |regs| && regs[i].name in items ==> items[regs[i].name].reg == regs[i]
  }

  lemma NamesGrow(regs: seq<Register>, i: nat)
    requires i < |regs|
    ensures Names(regs[..i + 1]) == Names(regs[..i]) + {regs[i].name}
  {
    assert regs[..i + 1] == regs[..i] + [regs[i]];
  }

  /** One more attempted register: its entry goes, and comes back only for an observable value. */
  function ObserveOne(w: World, n: string, items: map<string, Item>): map<string, Observation> {
    if n in items && Observable(w, items[n])
    then w.observations[n := Observation(items[n], w.now, TagOf(w, items[n].reg), w.polls)]
    else w.observations - {n}
  }

  lemma ObserveGrows(w: World, names: set<string>, n: string, items: map<string, Item>)
    ensures Observe(w, names + {n}, items)
         == Observe(w, names, items).(observations := ObserveOne(Observe(w, names, items), n, items))
  {
    hide IsNumber, IsFinite;
  }

  lemma NothingObserved(w: World, items: map<string, Item>)
    ensures Observe(w, {}, items) == w && Names([]) == {}
  {}

  /** Taking one observation looks at the client, the clock and the poll, not at the other
      observations or the streaks. */
  lemma ObserveOneIs(w: World, v: World, reg: Register, items: map<string, Item>)
    requires v == w.(observations := v.observations, streak := v.streak)
    requires reg.name in items ==> items[reg.name].reg == reg
    ensures ObserveOne(v, reg.name, items)
         == if reg.name in items && Observable(w, items[reg.name])
            then (v.observations - {reg.name})[reg.name := Observation(items[reg.name], w.now, TagOf(w, reg), w.polls)]
            else v.observations - {reg.name}
  {
    hide IsNumber, IsFinite;
  }

  /** What the filter does to one name: which zeros it drops, and how it counts. */
  lemma DroppedGrow(cfg: Config, data: map<string, Value>, streak: map<string, nat>, failure: bool,
                    names: set<string>, n: string)
    requires n !in names
    ensures
      var drops := n in data && failure && IsZero(data[n]) && StreakOf(streak, n) + 1 <= MAX_CONSECUTIVE_ZERO_DROPS;
      DroppedZeros(cfg.(implausible := names + {n}), data, streak, failure)
        == DroppedZeros(cfg.(implausible := names), data, streak, failure) + (if drops then {n} else {})
  {
    hide IsZero, StreakOf;
  }

  lemma StreaksGrow(cfg: Config, data: map<string, Value>, streak: map<string, nat>, failure: bool,
                    names: set<string>, n: string)
    requires n !in names
    ensures var before := StreakAfter(cfg.(implausible := names), data, streak, failure);
      && StreakAfter(cfg.(implausible := names + {n}), data, streak, failure)
         == (if n !in data then before
             else if failure && IsZero(data[n]) then before[n := StreakOf(streak, n) + 1] else before - {n})
      && StreakOf(before, n) == StreakOf(streak, n)
  {
    hide IsZero;
  }

  /** The configuration as far as the filter has come with names still to do. */
  function Upto(cfg: Config, names: set<string>): Config { cfg.(implausible := cfg.implausible - names) }

  lemma FilterEnds(cfg: Config, data: map<string, Value>, streak: map<string, nat>, failure: bool)
    ensures DroppedZeros(Upto(cfg, cfg.implausible), data, streak, failure) == {}
    ensures StreakAfter(Upto(cfg, cfg.implausible), data, streak, failure) == streak
    ensures Upto(cfg, {}) == cfg
  {
    assert Upto(cfg, cfg.implausible) == cfg.(implausible := {});
    assert cfg.implausible - {} == cfg.implausible;
  }

  /** One name more of the filter. */
  lemma FilterStep(cfg: Config, data: map<string, Value>, streak: map<string, nat>, failure: bool,
                   names: set<string>, n: string)
    requires names <= cfg.implausible && n in names
    ensures var one, more := Upto(cfg, names), Upto(cfg, names - {n});
      var drops, s := n in data && failure && IsZero(data[n]), StreakOf(streak, n) + 1;
      && n !in DroppedZeros(one, data, streak, failure)
      && DroppedZeros(more, data, streak, failure)
         == (if drops && s <= MAX_CONSECUTIVE_ZERO_DROPS then DroppedZeros(one, data, streak, failure) + {n}
             else DroppedZeros(one, data, streak, failure))
      && StreakAfter(more, data, streak, failure)
         == (if n !in data then StreakAfter(one, data, streak, failure)
             else if drops then StreakAfter(one, data, streak, failure)[n := s]
             else StreakAfter(one, data, streak, failure) - {n})
      && StreakOf(StreakAfter(one, data, streak, failure), n) == StreakOf(streak, n)
  {
    assert cfg.implausible - (names - {n}) == (cfg.implausible - names) + {n};
    assert n !in DroppedZeros(Upto(cfg, names), data, streak, failure);
    DroppedGrow(cfg, data, streak, failure, cfg.implausible - names, n);
    StreaksGrow(cfg, data, streak, failure, cfg.implausible - names, n);
    hide DroppedZeros, StreakAfter, StreakOf, IsZero;
  }

  predicate Hits(o: Observation, address: nat, quantity: nat) {
    o.item.reg.address < address + quantity && address < o.item.reg.address + o.item.reg.count
  }

  /** The observations left when those among `seen` have been checked against a raw write. */
  function Outside(all: map<string, Observation>, address: nat, quantity: nat, seen: set<string>)
    : map<string, Observation>
  {
    map n | n in all && !(n in seen && Hits(all[n], address, quantity)) :: all[n]
  }

  lemma OutsideGrows(all: map<string, Observation>, address: nat, quantity: nat, seen: set<string>, n: string)
    requires n in all && n !in seen
    ensures var left := Outside(all, address, quantity, seen);
      && n in left && left[n] == all[n]
      && Outside(all, address, quantity, seen + {n}) == (if Hits(all[n], address, quantity) then left - {n} else left)
  {
    hide Hits;
  }

  lemma OutsideEnds(w: World, address: nat, quantity: nat)
    ensures Outside(w.observations, address, quantity, {}) == w.observations
    ensures Outside(w.observations, address, quantity, w.observations.Keys)
         == w.observations - Overlapping(w, address, quantity)
  {}

  /** The entry may be served: tagged with this connection, and young enough. */
  predicate Current(w: World, cfg: Config, o: Observation) {
    o.tag == w.gen && 0.0 <= w.now - o.at <= Ttl(cfg, o.item.reg)
  }

  function CurrentOnes(w: World, cfg: Config, seen: set<string>): map<string, Observation> {
    map n | n in w.observations && n in seen && Current(w, cfg, w.observations[n]) :: w.observations[n]
  }

  lemma CurrentGrows(w: World, cfg: Config, seen: set<string>, n: string)
    requires n in w.observations
    ensures CurrentOnes(w, cfg, seen + {n})
         == if Current(w, cfg, w.observations[n]) then CurrentOnes(w, cfg, seen)[n := w.observations[n]]
            else CurrentOnes(w, cfg, seen) - (if n in seen then {} else {n})
  {
    hide Current;
  }

  lemma CurrentEnds(w: World, cfg: Config)
    ensures CurrentOnes(w, cfg, {}) == map[]
    ensures !w.closing && w.connected && w.success ==> CurrentOnes(w, cfg, w.observations.Keys) == Served(w, cfg)
  {
    hide Ttl;
  }

  /** Serving depends on the connection and the clock alone. */
  lemma CurrentAnywhere(w: World, v: World, cfg: Config, o: Observation)
    requires w.gen == v.gen && w.now == v.now
    ensures Current(w, cfg, o) <==> Current(v, cfg, o)
  {}

  class ModbusCoordinator {
    var proxyObservations: map<string, Observation>
    var zeroDropStreak: map<string, nat>

    constructor ()
      ensures proxyObservations == map[] && zeroDropStreak == map[]
    {
      proxyObservations, zeroDropStreak := map[], map[];
    }

    /** The state machine's view: the client, the clock and the poll around these fields. */
    function View(w: World): World
      reads this
    {
      w.(observations := proxyObservations, streak := zeroDropStreak)
    }

    method ObserveForProxy(w: World, regs: seq<Register>, items: map<string, Item>)
      requires Belongs(regs, items)
      modifies this`proxyObservations
      ensures View(w) == Observe(old(View(w)), Names(regs), items)
    {
      ghost var was := View(w);
      NothingObserved(was, items);
      hide Observe, ObserveOne, Observable, TagOf, Names;
      assert regs[..0] == [];
      for i := 0 to |regs|
        invariant View(w) == Observe(was, Names(regs[..i]), items)
      {
        NamesGrow(regs, i);
        ObserveGrows(was, Names(regs[..i]), regs[i].name, items);
        ObserveOneIs(w, View(w), regs[i], items);
        var name := regs[i].name;
        proxyObservations := proxyObservations - {name};
        if name in items && Observable(w, items[name]) {
          proxyObservations := proxyObservations[name := Observation(items[name], w.now, TagOf(w, regs[i]), w.polls)];
        }
      }
      assert regs[..|regs|] == regs;
    }

    method InvalidateProxyCache(w: World, address: nat, quantity: nat)
      modifies this`proxyObservations
      ensures View(w) == Forget(old(View(w)), Overlapping(old(View(w)), address, quantity))
    {
      hide Overlapping, Outside, Hits;
      var names := proxyObservations.Keys;
      ghost var was := proxyObservations;
      ghost var seen: set<string> := {};
      OutsideEnds(View(w), address, quantity);
      while names != {}
        invariant names <= proxyObservations.Keys && names !! seen && names + seen == was.Keys
        invariant proxyObservations == Outside(was, address, quantity, seen)
        decreases |names|
      {
        ghost var some := Member(names);
        var n :| n in names;
        OutsideGrows(was, address, quantity, seen, n);
        if Hits(proxyObservations[n], address, quantity) { proxyObservations := proxyObservations - {n}; }
        names := names - {n};
        seen := seen + {n};
      }
      assert seen == was.Keys;
    }

    method ProxyCacheData(w: World, cfg: Config) returns (serving: map<string, Observation>)
      ensures serving == Served(View(w), cfg)
    {
      if w.closing || !w.connected || !w.success { return map[]; }
      hide Current, CurrentOnes;
      serving := map[];
      var names := proxyObservations.Keys;
      ghost var seen: set<string> := {};
      CurrentEnds(View(w), cfg);
      hide Served;
      while names != {}
        invariant names !! seen && names + seen == proxyObservations.Keys
        invariant serving == CurrentOnes(View(w), cfg, seen)
        decreases |names|
      {
        ghost var some := Member(names);
        var n :| n in names;
        CurrentGrows(View(w), cfg, seen, n);
        var o := proxyObservations[n];
        if Current(w, cfg, o) { serving := serving[n := o]; }
        CurrentAnywhere(w, View(w), cfg, o);
        names := names - {n};
        seen := seen + {n};
      }
      assert seen == proxyObservations.Keys;
    }

    /** The loop body for one name: counts or ends its streak, and says whether to drop it. */
    method DropOne(n: string, data: map<string, Value>, failure: bool) returns (drops: bool)
      modifies this`zeroDropStreak
      ensures var zero, s := n in data && failure && IsZero(data[n]), StreakOf(old(zeroDropStreak), n) + 1;
        && drops == (zero && s <= MAX_CONSECUTIVE_ZERO_DROPS)
        && zeroDropStreak == (if n !in data then old(zeroDropStreak)
                              else if zero then old(zeroDropStreak)[n := s] else old(zeroDropStreak) - {n})
    {
      if n !in data { return false; }
      if !failure || !IsZero(data[n]) {
        zeroDropStreak := zeroDropStreak - {n};
        return false;
      }
      var streak := StreakOf(zeroDropStreak, n) + 1;
      zeroDropStreak := zeroDropStreak[n := streak];
      return streak <= MAX_CONSECUTIVE_ZERO_DROPS;
    }

    /** Drops the zeros of this poll's data that the filter rejects, and counts the streaks. */
    method DropImplausibleZeros(cfg: Config, data: map<string, Value>, failure: bool)
      returns (left: map<string, Value>, dropped: set<string>)
      modifies this`zeroDropStreak
      ensures dropped == DroppedZeros(cfg, data, old(zeroDropStreak), failure) && left == data - dropped
      ensures zeroDropStreak == StreakAfter(cfg, data, old(zeroDropStreak), failure)
    {
      ghost var was := zeroDropStreak;
      var names := cfg.implausible;
      left, dropped := data, {};
      FilterEnds(cfg, data, was, failure);
      hide DroppedZeros, StreakAfter, IsZero, StreakOf, Upto;
      while names != {}
        invariant names <= cfg.implausible
        invariant dropped == DroppedZeros(Upto(cfg, names), data, was, failure) && left == data - dropped
        invariant zeroDropStreak == StreakAfter(Upto(cfg, names), data, was, failure)
        decreases |names|
      {
        ghost var some := Member(names);
        var n :| n in names;
        FilterStep(cfg, data, was, failure, names, n);
        var drops := DropOne(n, left, failure);
        if drops {
          dropped := dropped + {n};
          left := left - {n};
        }
        names := names - {n};
      }
    }
  }
}
