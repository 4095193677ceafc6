/** The two filters for implausible zeros, over whole runs: the Modbus one
    (modbus_coordinator.py) and the REST state-of-charge one (coordinator.py). */
module ZeroFilters {
  import opened Registers
  import opened PollCoordinator

  // ---------- Modbus ----------

  /** What one poll hands to the filter: the merged readings, and whether the inverter answered
      Server Device Failure meanwhile. */
  datatype Filtered = Filtered(data: map<string, Value>, failure: bool)

  function StreakBefore(cfg: Config, polls: seq<Filtered>): map<string, nat> {
    if polls == [] then map[]
    else
      var last := polls[|polls| - 1];
      StreakAfter(cfg, last.data, StreakBefore(cfg, polls[..|polls| - 1]), last.failure)
  }

  /** The filter drops register n in poll i. */
  predicate Drops(cfg: Config, polls: seq<Filtered>, i: nat, n: string)
    requires i < |polls|
  {
    n in DroppedZeros(cfg, polls[i].data, StreakBefore(cfg, polls[..i]), polls[i].failure)
  }

  /** A zero in a poll that saw a device failure. */
  predicate Faulty(p: Filtered, n: string) {
    n in p.data && p.failure && IsZero(p.data[n])
  }

  /** Any other reading ends the streak; a poll without a reading of n does not. */
  predicate Resets(p: Filtered, n: string) {
    n in p.data && !Faulty(p, n)
  }

  /** Polls i and j belong to one streak of n. */
  ghost predicate OneStreak(polls: seq<Filtered>, i: nat, j: nat, n: string)
    requires i <= j <= |polls|
  {
    forall k :: i < k < j ==> !Resets(polls[k], n)
  }

  /** How many faulty polls the current streak of n has. */
  function Streak(polls: seq<Filtered>, n: string): nat {
    if polls == [] then 0
    else
      var last := polls[|polls| - 1];
      if Faulty(last, n) then Streak(polls[..|polls| - 1], n) + 1
      else if Resets(last, n) then 0 else Streak(polls[..|polls| - 1], n)
  }

  lemma {:induction false} StreakIsCounted(cfg: Config, polls: seq<Filtered>, n: string)
    requires n in cfg.implausible
    ensures StreakOf(StreakBefore(cfg, polls), n) == Streak(polls, n)
  {
    if polls != [] {
      StreakIsCounted(cfg, polls[..|polls| - 1], n);
    }
  }

  /** How a streak that began at poll i goes on through the last poll. */
  lemma StreakGoesOn(polls: seq<Filtered>, i: nat, n: string)
    requires i < |polls| - 1
    ensures OneStreak(polls, i, |polls|, n) <==>
      OneStreak(polls[..|polls| - 1], i, |polls| - 1, n) && !Resets(polls[|polls| - 1], n)
  {
    hide Resets;
    var m := |polls| - 1;
    assert forall k :: 0 <= k < m ==> polls[..m][k] == polls[k];
  }

  lemma {:induction false} OneInStreak(polls: seq<Filtered>, n: string)
    ensures Streak(polls, n) >= 1 <==>
      exists i :: 0 <= i < |polls| && Faulty(polls[i], n) && OneStreak(polls, i, |polls|, n)
  {
    if polls != [] {
      var m := |polls| - 1;
      var front := polls[..m];
      OneInStreak(front, n);
      assert OneStreak(polls, m, |polls|, n);
      assert Faulty(polls[m], n) ==> !Resets(polls[m], n);
      hide Faulty, Resets, OneStreak;
      forall i | 0 <= i < m
        ensures OneStreak(polls, i, |polls|, n) <==> OneStreak(front, i, m, n) && !Resets(polls[m], n)
        ensures polls[i] == front[i]
      {
        StreakGoesOn(polls, i, n);
      }
    }
  }

  /** Polls i and j each held a faulty zero and the streak of i still lasts. */
  ghost predicate TwoFaulty(polls: seq<Filtered>, i: nat, j: nat, n: string)
    requires i < j < |polls|
  {
    Faulty(polls[i], n) && Faulty(polls[j], n) && OneStreak(polls, i, |polls|, n)
  }

  /** A streak has two faulty polls exactly when two such polls can be pointed at. */
  lemma {:induction false} TwoInStreak(polls: seq<Filtered>, n: string)
    ensures Streak(polls, n) >= 2 <==> exists i, j :: 0 <= i < j < |polls| && TwoFaulty(polls, i, j, n)
  {
    if polls != [] {
      var m := |polls| - 1;
      var front := polls[..m];
      TwoInStreak(front, n);
      OneInStreak(front, n);
      assert Faulty(polls[m], n) ==> !Resets(polls[m], n);
      hide Faulty, Resets, OneStreak;
      forall i | 0 <= i < m
        ensures OneStreak(polls, i, |polls|, n) <==> OneStreak(front, i, m, n) && !Resets(polls[m], n)
        ensures polls[i] == front[i]
      {
        StreakGoesOn(polls, i, n);
      }
      forall i, j | 0 <= i < j < m
        ensures TwoFaulty(polls, i, j, n) <==> TwoFaulty(front, i, j, n) && !Resets(polls[m], n)
      {}
      forall i | 0 <= i < m
        ensures TwoFaulty(polls, i, m, n) <==>
          Faulty(front[i], n) && OneStreak(front, i, m, n) && !Resets(polls[m], n) && Faulty(polls[m], n)
      {}
      hide TwoFaulty;
      if i :| 0 <= i < m && Faulty(front[i], n) && OneStreak(front, i, m, n) {
        assert Faulty(polls[m], n) ==> TwoFaulty(polls, i, m, n);
      }
      if i, j :| 0 <= i < j < m && TwoFaulty(front, i, j, n) {
        assert TwoFaulty(polls, i, j, n) || Resets(polls[m], n);
      }
    }
  }

  /** A reading is dropped exactly when it is a zero in a poll that saw a device failure and no
      two earlier such polls belong to the same streak: at most two per streak, and a real outage
      is seen from the third on. */
  lemma DropsAtMostTwo(cfg: Config, polls: seq<Filtered>, i: nat, n: string)
    requires i < |polls| && n in cfg.implausible
    ensures Drops(cfg, polls, i, n) <==>
      && Faulty(polls[i], n)
      && !exists a, b :: 0 <= a < b < i && TwoFaulty(polls[..i], a, b, n)
  {
    StreakIsCounted(cfg, polls[..i], n);
    TwoInStreak(polls[..i], n);
  }

  // ---------- REST ----------

  const REST_MAX_ZERO_DROPS := 2

  /** A field's text: a finite number, or a textual device state. */
  datatype Text = Number(x: real) | Words(s: string)

  /** One successful fetch as the state of charge sees it: not answered, answered with something
      that could not be parsed, or answered. */
  datatype Fetch = Absent | Unparsed | Answered(t: Text)

  /** The cached text and the count of zeros held. */
  datatype RestState = RestState(last: Option<Text>, drops: nat)

  const NO_READING := RestState(None, 0)

  const ZERO := Answered(Number(0.0))

  /** `_held_soc_for_zero`: whether the last value stands in, and the count afterwards. A cached
      text that is no number makes it give up before the count is touched. */
  function Held(s: RestState, t: Text): (bool, nat) {
    if t.Words? || (s.last.Some? && s.last.value.Words?) then (false, s.drops)
    else if t.x != 0.0 || s.last.None? || !(s.last.value.x > 0.0) || s.drops >= REST_MAX_ZERO_DROPS
    then (false, if t.x != 0.0 then 0 else s.drops)
    else (true, s.drops + 1)
  }

  /** What one fetch publishes for the state of charge, and what it caches. */
  function Offer(s: RestState, f: Fetch): (RestState, Option<Text>) {
    match f
    case Absent => (s, None)
    case Unparsed => (s, s.last)
    case Answered(t) =>
      var (held, drops) := Held(s, t);
      if held then (s.(drops := drops), s.last) else (RestState(Some(t), drops), Some(t))
  }

  function AfterFetches(s: RestState, run: seq<Fetch>): RestState {
    if run == [] then s else Offer(AfterFetches(s, run[..|run| - 1]), run[|run| - 1]).0
  }

  /** What fetch i of a run publishes. */
  function Published(s: RestState, run: seq<Fetch>, i: nat): Option<Text>
    requires i < |run|
  {
    Offer(AfterFetches(s, run[..i]), run[i]).1
  }

  /** Only texts the device really answered with are ever cached: a held or back-filled value
      never enters the cache. A non-zero reading is published as it is. */
  lemma {:induction false} CacheHoldsReadings(run: seq<Fetch>, i: nat)
    requires i < |run|
    ensures AfterFetches(NO_READING, run).last.Some? ==> Answered(AfterFetches(NO_READING, run).last.value) in run
    ensures run[i].Answered? && run[i] != ZERO ==> Published(NO_READING, run, i) == Some(run[i].t)
  {
    CacheHoldsSome(run);
  }

  lemma {:induction false} CacheHoldsSome(run: seq<Fetch>)
    ensures AfterFetches(NO_READING, run).last.Some? ==> Answered(AfterFetches(NO_READING, run).last.value) in run
  {
    if run != [] {
      CacheHoldsSome(run[..|run| - 1]);
      assert forall f :: f in run[..|run| - 1] ==> f in run;
      assert run[|run| - 1] in run;
    }
  }

  /** Fetches in which no other reading than zero arrives. */
  predicate OnlyZeros(zeros: seq<Fetch>) {
    forall f :: f in zeros ==> f.Absent? || f.Unparsed? || f == ZERO
  }

  function CountZeros(zeros: seq<Fetch>): nat {
    if zeros == [] then 0
    else CountZeros(zeros[..|zeros| - 1]) + if zeros[|zeros| - 1] == ZERO then 1 else 0
  }

  /** Holds counted before a positive reading that it does not clear: those of a state whose
      cached text is no number. */
  function Carried(s: RestState): nat {
    if s.last.Some? && s.last.value.Words? then s.drops else 0
  }

  lemma {:induction false} StateAmongZeros(s: RestState, p: real, zeros: seq<Fetch>)
    requires p > 0.0 && OnlyZeros(zeros) && s.drops <= REST_MAX_ZERO_DROPS
    ensures
      var t, z := AfterFetches(Offer(s, Answered(Number(p))).0, zeros), CountZeros(zeros) + Carried(s);
      if z <= REST_MAX_ZERO_DROPS then t == RestState(Some(Number(p)), z)
      else t == RestState(Some(Number(0.0)), REST_MAX_ZERO_DROPS)
  {
    if zeros != [] {
      assert zeros[|zeros| - 1] in zeros;
      assert forall f :: f in zeros[..|zeros| - 1] ==> f in zeros;
      StateAmongZeros(s, p, zeros[..|zeros| - 1]);
    }
  }

  /** After a positive reading, the first two zeros (less those carried over) are published as
      that reading and the rest as zeros, whatever gaps lie in between. */
  lemma ZerosAfterPositive(s: RestState, p: real, zeros: seq<Fetch>, i: nat)
    requires p > 0.0 && OnlyZeros(zeros) && s.drops <= REST_MAX_ZERO_DROPS && i < |zeros| && zeros[i] == ZERO
    ensures Published(Offer(s, Answered(Number(p))).0, zeros, i)
         == if CountZeros(zeros[..i]) + Carried(s) < REST_MAX_ZERO_DROPS then Some(Number(p)) else Some(Number(0.0))
  {
    assert forall f :: f in zeros[..i] ==> f in zeros;
    StateAmongZeros(s, p, zeros[..i]);
  }

  /** The count stays within its bound in every run. */
  lemma {:induction false} DropsAreBounded(run: seq<Fetch>)
    ensures AfterFetches(NO_READING, run).drops <= REST_MAX_ZERO_DROPS
  {
    if run != [] { DropsAreBounded(run[..|run| - 1]); }
  }

  /** Exactly the first two zeros after the positive reading are replaced by it. */
  ghost predicate HoldsExactlyTwo(s: RestState, p: real) {
    forall zeros, i: nat :: OnlyZeros(zeros) && i < |zeros| && zeros[i] == ZERO ==>
      Published(Offer(s, Answered(Number(p))).0, zeros, i)
        == if CountZeros(zeros[..i]) < REST_MAX_ZERO_DROPS then Some(Number(p)) else Some(Number(0.0))
  }

  /** In every run, a positive reading makes exactly the next two zeros be held if and only if the
      text cached before it was a number (or none), or no hold had been counted. */
  lemma ExactlyTwoAreHeld(run: seq<Fetch>, p: real)
    requires p > 0.0
    ensures
      var s := AfterFetches(NO_READING, run);
      HoldsExactlyTwo(s, p) <==> !(s.last.Some? && s.last.value.Words?) || s.drops == 0
  {
    var s := AfterFetches(NO_READING, run);
    DropsAreBounded(run);
    if Carried(s) == 0 {
      forall zeros, i: nat | OnlyZeros(zeros) && i < |zeros| && zeros[i] == ZERO
        ensures Published(Offer(s, Answered(Number(p))).0, zeros, i)
             == if CountZeros(zeros[..i]) < REST_MAX_ZERO_DROPS then Some(Number(p)) else Some(Number(0.0))
      {
        ZerosAfterPositive(s, p, zeros, i);
      }
    } else {
      var zeros := [ZERO, ZERO];
      ZerosAfterPositive(s, p, zeros, 1);
      assert zeros[..1] == [ZERO] && [ZERO][..0] == [];
      assert CountZeros(zeros[..1]) == 1;
      assert Published(Offer(s, Answered(Number(p))).0, zeros, 1) == Some(Number(0.0));
    }
  }

  /** Such a state is reachable: two held zeros, a textual state, a recovery - and the next zero
      goes straight through. */
  lemma TextBetweenZeros()
    ensures
      var run := [Answered(Number(50.0)), ZERO, ZERO, Answered(Words("unavailable"))];
      var s := AfterFetches(NO_READING, run);
      s.last == Some(Words("unavailable")) && s.drops == 2
      && Published(Offer(s, Answered(Number(60.0))).0, [ZERO], 0) == Some(Number(0.0))
  {
    var run := [Answered(Number(50.0)), ZERO, ZERO, Answered(Words("unavailable"))];
    var r1, r2, r3 := run[..1], run[..2], run[..3];
    assert r1[..0] == [] && r2[..1] == r1 && r3[..2] == r2 && run[..3] == r3;
    assert AfterFetches(NO_READING, r1) == RestState(Some(Number(50.0)), 0);
    assert AfterFetches(NO_READING, r3) == RestState(Some(Number(50.0)), 2);
    assert [ZERO][..0] == [];
  }

  // ---------- The REST coordinator's fields ----------

  const REST_BATTERY_MODULE := "devices:local:battery"

  /** One answered module: its field names in answer order, and what parsing gave. */
  datatype Answer = Answer(keys: seq<string>, texts: map<string, Text>)

  function Lookup(m: map<string, Text>, field: string): Option<Text> {
    if field in m then Some(m[field]) else None
  }

  function Overlaid(over: map<string, Text>, under: map<string, Text>, field: string): Option<Text> {
    if field in over then Some(over[field]) else Lookup(under, field)
  }

  predicate HoldsBack(held: Option<Text>, a: Answer, field: string) {
    field !in a.keys || (held.Some? && field == "SoC")
  }

  /** Parses the fields one by one: what could be parsed, and the names of the others. */
  method ParseFields(a: Answer) returns (parsed: map<string, Text>, failed: seq<string>)
    ensures forall f :: Lookup(parsed, f) == if f in a.keys then Lookup(a.texts, f) else None
    ensures forall f :: f in failed <==> f in a.keys && f !in a.texts
  {
    parsed, failed := map[], [];
    for k := 0 to |a.keys|
      invariant forall f :: f in parsed <==> f in a.keys[..k] && f in a.texts
      invariant forall f :: f in parsed ==> parsed[f] == a.texts[f]
      invariant forall f :: f in failed <==> f in a.keys[..k] && f !in a.texts
    {
      if a.keys[k] in a.texts {
        parsed := parsed[a.keys[k] := a.texts[a.keys[k]]];
      } else {
        failed := failed + [a.keys[k]];
      }
      assert a.keys[..k + 1] == a.keys[..k] + [a.keys[k]];
    }
    assert a.keys[..|a.keys|] == a.keys;
  }

  /** Fills the fields that could not be parsed from the cache, where it has them. */
  method Backfill(parsed: map<string, Text>, failed: seq<string>, last: map<string, Text>)
    returns (result: map<string, Text>)
    requires forall f :: f in failed ==> f !in parsed
    ensures forall f :: Lookup(result, f) == if f in failed then Lookup(last, f) else Lookup(parsed, f)
  {
    result := parsed;
    for k := 0 to |failed|
      invariant forall f :: Lookup(result, f) == if f in failed[..k] then Lookup(last, f) else Lookup(parsed, f)
    {
      if failed[k] in last {
        result := result[failed[k] := last[failed[k]]];
      }
      assert failed[..k + 1] == failed[..k] + [failed[k]];
      assert failed[k] in failed;
    }
    assert failed[..|failed|] == failed;
  }

  /** The part of ProcessDataUpdateCoordinator that merges the fetched values: the cache, per
      module and field, and the count of held zeros. */
  class ProcessDataCoordinator {
    var lastResult: map<string, map<string, Text>>
    var socZeroDrops: nat

    constructor ()
      ensures lastResult == map[] && socZeroDrops == 0
    {
      lastResult, socZeroDrops := map[], 0;
    }

    function Cached(moduleId: string): map<string, Text>
      reads this
    {
      if moduleId in lastResult then lastResult[moduleId] else map[]
    }

    function Soc(): RestState
      reads this
    {
      RestState(Lookup(Cached(REST_BATTERY_MODULE), "SoC"), socZeroDrops)
    }

    method HeldSocForZero(moduleId: string, values: map<string, Text>) returns (held: Option<Text>)
      modifies this`socZeroDrops
      ensures moduleId != REST_BATTERY_MODULE || "SoC" !in values ==> held == None && socZeroDrops == old(socZeroDrops)
      ensures moduleId == REST_BATTERY_MODULE && "SoC" in values ==>
        && (held.Some?, socZeroDrops) == Held(old(Soc()), values["SoC"])
        && (held.Some? ==> held == old(Soc()).last)
    {
      if moduleId != REST_BATTERY_MODULE || "SoC" !in values { return None; }
      var cached := Cached(moduleId);
      var soc := values["SoC"];
      if soc.Words? { return None; }
      if "SoC" in cached && cached["SoC"].Words? { return None; }
      if soc.x != 0.0 || "SoC" !in cached || !(cached["SoC"].x > 0.0) || socZeroDrops >= REST_MAX_ZERO_DROPS {
        socZeroDrops := if soc.x != 0.0 then 0 else socZeroDrops;
        return None;
      }
      socZeroDrops := socZeroDrops + 1;
      return Some(cached["SoC"]);
    }

    method StoreParsed(moduleId: string, parsed: map<string, Text>)
      modifies this`lastResult
      ensures forall other :: other != moduleId ==> Cached(other) == old(Cached(other))
      ensures forall f :: Lookup(Cached(moduleId), f) == Overlaid(parsed, old(Cached(moduleId)), f)
    {
      if parsed != map[] {
        lastResult := lastResult[moduleId := Cached(moduleId) + parsed];
      }
    }

    /** Merges one module's answer into what is published and into the cache. The battery state
        of charge follows the filter above; every other field is published as answered, or from
        the cache when it could not be parsed, and is cached only as answered. Other modules keep
        their cache. */
    method MergeModule(moduleId: string, a: Answer) returns (result: map<string, Text>)
      modifies this
      ensures forall other :: other != moduleId ==> Cached(other) == old(Cached(other))
      ensures moduleId == REST_BATTERY_MODULE ==>
        (Soc(), Lookup(result, "SoC")) == Offer(old(Soc()),
          if "SoC" !in a.keys then Absent else if "SoC" in a.texts then Answered(a.texts["SoC"]) else Unparsed)
      ensures moduleId != REST_BATTERY_MODULE ==> socZeroDrops == old(socZeroDrops)
      ensures forall field :: !(moduleId == REST_BATTERY_MODULE && field == "SoC") ==>
        var was := Lookup(old(Cached(moduleId)), field);
        var read := if field in a.keys then Lookup(a.texts, field) else None;
        && Lookup(Cached(moduleId), field) == (if read.Some? then read else was)
        && Lookup(result, field) == (if field in a.keys && read.None? then was else read)
    {
      hide Held;
      var failed;
      result, failed := ParseFields(a);
      var held := HeldSocForZero(moduleId, result);
      var parsed := result;
      if held.Some? {
        parsed := parsed - {"SoC"};
        result := result["SoC" := held.value];
      }
      ghost var was := Cached(moduleId);
      assert forall f :: Lookup(parsed, f) == if HoldsBack(held, a, f) then None else Lookup(a.texts, f);
      result := Backfill(result, failed, Cached(moduleId));
      assert forall f :: Lookup(result, f) == if held.Some? && f == "SoC" then held
        else if f !in a.keys then None else if f in a.texts then Some(a.texts[f]) else Lookup(was, f);
      hide Lookup;
      StoreParsed(moduleId, parsed);
      hide Offer;
    }
  }
}
