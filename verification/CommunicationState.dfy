/** Counting communication incidents across restarts (communication.py, and the saving of
    snapshots in modbus_coordinator.py). */
module CommunicationState {
  import opened Registers

  /** The known fault codes in alphabetical order. */
  const FAULT_CODES: seq<string> := [
    "battery_soc", "charge_limit", "discharge_switch", "grid_meter", "grid_switch", "island_contact",
    "min_soc", "modbus", "modbus_partial", "proxy", "rest", "write_unconfirmed"]

  const HISTORY_LIMIT := 32

  /** A moment with its calendar day. */
  datatype Time = Time(day: int, clock: real)

  /** One announcement: each of its codes once, in alphabetical order. */
  datatype Entry = Entry(time: Time, faults: seq<string>, stopConfirmed: Option<bool>)

  datatype State = State(incidents: nat, failedSamples: nat, faults: seq<string>, stopConfirmed: Option<bool>,
                         lastSuccessAt: Option<Time>, history: seq<Entry>, announced: bool, noticeDay: Option<int>)

  const BLANK := State(0, 0, [], None, None, [], false, None)

  /** What the store may hand back: items whose time does not parse have none. */
  datatype Item = Item(time: Option<Time>, faults: seq<string>, stopConfirmed: Option<bool>)

  datatype Saved = Saved(incidents: int, failedSamples: int, lastSuccessAt: Option<Time>, history: seq<Item>)

  function Last<T>(s: seq<T>): seq<T> {
    if |s| > HISTORY_LIMIT then s[|s| - HISTORY_LIMIT..] else s
  }

  predicate Known(faults: seq<string>) { forall i :: 0 <= i < |faults| ==> faults[i] in FAULT_CODES }

  function Pick(codes: seq<string>, faults: seq<string>): seq<string> {
    if codes == [] then [] else (if codes[0] in faults then [codes[0]] else []) + Pick(codes[1..], faults)
  }

  /** The distinct codes of a list of known faults, sorted. */
  function Sorted(faults: seq<string>): seq<string> { Pick(FAULT_CODES, faults) }

  /** One observation of known faults, and whether it is announced. */
  function Observation(s: State, faults: seq<string>, now: Time, stop: Option<bool>): (State, bool) {
    var current := Sorted(faults);
    var changed := current != s.faults || (current != [] && stop != s.stopConfirmed);
    var announce := changed || (current != [] && (!s.announced || s.noticeDay != Some(now.day)));
    var next := s.(
      incidents := if current != [] && s.faults == [] then s.incidents + 1 else s.incidents,
      failedSamples := if current != [] then s.failedSamples + 1 else s.failedSamples,
      lastSuccessAt := if current != [] then s.lastSuccessAt else Some(now),
      faults := current, stopConfirmed := stop);
    if announce
    then
      (next.(announced := true, noticeDay := Some(now.day), history := Last(s.history + [Entry(now, current, stop)])),
       true)
    else (next, false)
  }

  function Items(history: seq<Entry>): seq<Item> {
    if history == [] then []
    else
      var e := history[|history| - 1];
      Items(history[..|history| - 1]) + [Item(Some(e.time), e.faults, e.stopConfirmed)]
  }

  function SnapshotOf(s: State): Saved {
    Saved(s.incidents, s.failedSamples, s.lastSuccessAt, Items(s.history))
  }

  predicate Readable(i: Item) { i.time.Some? && Known(i.faults) }

  function Entries(items: seq<Item>): seq<Entry> {
    if items == [] then []
    else
      var i := items[|items| - 1];
      Entries(items[..|items| - 1])
        + if Readable(i) then [Entry(i.time.value, Sorted(i.faults), i.stopConfirmed)] else []
  }

  /** What the constructor makes of whatever the store hands back. */
  function Restored(v: Saved): State {
    var history := Entries(Last(v.history));
    var s := BLANK.(
      incidents := if v.incidents >= 0 then v.incidents else 0,
      failedSamples := if v.failedSamples >= 0 then v.failedSamples else 0,
      lastSuccessAt := v.lastSuccessAt, history := history);
    if history == [] then s
    else s.(faults := history[|history| - 1].faults, stopConfirmed := history[|history| - 1].stopConfirmed)
  }

  // ---------- Runs with restarts ----------

  /** An observation, with whether saving it would reach the store; or a restart. */
  datatype Event = Observed(faults: seq<string>, now: Time, stop: Option<bool>, stored: bool) | Restarted

  /** The running state, what the store holds, and whether an announcement is missing there. */
  datatype World = World(state: State, store: Option<Saved>, missing: bool)

  function Step(w: World, e: Event): World {
    match e
    case Restarted => World(if w.store.Some? then Restored(w.store.value) else BLANK, w.store, w.missing)
    case Observed(faults, now, stop, stored) =>
      if !Known(faults) then w
      else
        var (s, announced) := Observation(w.state, faults, now, stop);
        if !announced then w.(state := s)
        else World(s, if stored then Some(SnapshotOf(s)) else w.store, !stored)
  }

  function After(run: seq<Event>): World {
    if run == [] then World(BLANK, None, false) else Step(After(run[..|run| - 1]), run[|run| - 1])
  }

  /** No restart comes while an announcement is missing in the store. */
  predicate Durable(run: seq<Event>) {
    run == [] || (
      var front := run[..|run| - 1];
      Durable(front) && (run[|run| - 1].Restarted? ==> !After(front).missing))
  }

  /** The run as it would be without restarts. */
  function Uninterrupted(run: seq<Event>): seq<Event> {
    if run == [] then []
    else
      var e := run[|run| - 1];
      Uninterrupted(run[..|run| - 1]) + if e.Restarted? then [] else [e]
  }

  /** The current fault set, and the number of times it stopped being empty: what an incident
      count should be, with restarts or without. */
  function FaultsNow(run: seq<Event>): seq<string> {
    if run == [] then []
    else
      var e := run[|run| - 1];
      if e.Observed? && Known(e.faults) then Sorted(e.faults) else FaultsNow(run[..|run| - 1])
  }

  function Onsets(run: seq<Event>): nat {
    if run == [] then 0
    else
      var front := run[..|run| - 1];
      Onsets(front) + if FaultsNow(front) == [] && FaultsNow(run) != [] then 1 else 0
  }

  /** What one event adds to the history. */
  function Announced(s: State, e: Event): seq<Entry> {
    if e.Observed? && Known(e.faults) && Observation(s, e.faults, e.now, e.stop).1
    then [Entry(e.now, Sorted(e.faults), e.stop)] else []
  }

  /** Everything ever announced, restarts or not. */
  function Announcements(run: seq<Event>): seq<Entry> {
    if run == [] then []
    else
      var e, front := run[|run| - 1], run[..|run| - 1];
      Announcements(front) + Announced(After(front).state, e)
  }

  predicate WellKept(s: State) {
    && |s.history| <= HISTORY_LIMIT
    && (forall i :: 0 <= i < |s.history| ==>
          Known(s.history[i].faults) && Sorted(s.history[i].faults) == s.history[i].faults)
    && s.faults == if s.history == [] then [] else s.history[|s.history| - 1].faults
  }

  /** What the store holds restores what matters of the state. */
  predicate Backed(w: World) {
    !w.missing ==>
      if w.store.None? then w.state.incidents == 0 && w.state.history == []
      else w.store.value.incidents == w.state.incidents && w.store.value.history == Items(w.state.history)
  }

  lemma {:induction false} Picked(codes: seq<string>, faults: seq<string>)
    ensures forall c :: c in Pick(codes, faults) <==> c in codes && c in faults
  {
    if codes != [] {
      Picked(codes[1..], faults);
      assert codes == [codes[0]] + codes[1..];
    }
  }

  lemma {:induction false} PickAgain(codes: seq<string>, faults: seq<string>, picked: seq<string>)
    requires forall c :: c in codes ==> (c in picked <==> c in faults)
    ensures Pick(codes, picked) == Pick(codes, faults)
  {
    if codes != [] {
      assert codes[0] in codes && forall c :: c in codes[1..] ==> c in codes;
      PickAgain(codes[1..], faults, picked);
    }
  }

  /** Sorting a list of codes again changes nothing, and leaves only known ones. */
  lemma SortedTwice(faults: seq<string>)
    ensures Sorted(Sorted(faults)) == Sorted(faults) && Known(Sorted(faults))
  {
    Picked(FAULT_CODES, faults);
    PickAgain(FAULT_CODES, faults, Sorted(faults));
    hide Pick;
  }

  lemma {:induction false} EntriesBack(history: seq<Entry>)
    requires forall i :: 0 <= i < |history| ==>
      Known(history[i].faults) && Sorted(history[i].faults) == history[i].faults
    ensures Entries(Items(history)) == history && |Items(history)| == |history|
  {
    hide Sorted, Known;
    if history != [] {
      var n := |history| - 1;
      EntriesBack(history[..n]);
      assert Items(history)[..n] == Items(history[..n]);
      var last := history[n];
      assert Readable(Item(Some(last.time), last.faults, last.stopConfirmed)) && Sorted(last.faults) == last.faults;
      hide Readable;
      assert history == history[..n] + [last];
    }
  }

  /** A store that lists the history of a state restores what matters of it. */
  lemma RestoredFrom(v: Saved, s: State)
    requires WellKept(s) && v.incidents == s.incidents && v.history == Items(s.history)
    ensures Restored(v).incidents == s.incidents && Restored(v).history == s.history && Restored(v).faults == s.faults
  {
    EntriesBack(s.history);
    hide Items, Entries, Known, Sorted;
  }

  /** Saving and restoring keeps the incidents, the fault list, the history and the counters. */
  lemma RestoreInvertsSnapshot(s: State)
    requires WellKept(s)
    ensures var r := Restored(SnapshotOf(s));
      && r.incidents == s.incidents && r.history == s.history && r.faults == s.faults
      && r.failedSamples == s.failedSamples && r.lastSuccessAt == s.lastSuccessAt
  {
    RestoredFrom(SnapshotOf(s), s);
    hide Items, Entries;
  }

  lemma ObserveKeeps(s: State, faults: seq<string>, now: Time, stop: Option<bool>)
    requires WellKept(s) && Known(faults)
    ensures WellKept(Observation(s, faults, now, stop).0)
    ensures !Observation(s, faults, now, stop).1 ==>
      var t := Observation(s, faults, now, stop).0;
      t.incidents == s.incidents && t.faults == s.faults && t.history == s.history
  {
    SortedTwice(faults);
    hide Sorted, Known;
  }

  lemma RestartKeeps(w: World)
    requires WellKept(w.state) && Backed(w) && !w.missing
    ensures var s := Step(w, Restarted).state;
      s.incidents == w.state.incidents && s.faults == w.state.faults && s.history == w.state.history
  {
    if w.store.Some? { RestoredFrom(w.store.value, w.state); }
    hide Known, Sorted, Restored, Items;
  }

  lemma StepKeeps(w: World, e: Event)
    requires WellKept(w.state) && Backed(w) && (e.Restarted? ==> !w.missing)
    ensures WellKept(Step(w, e).state) && Backed(Step(w, e))
  {
    if e.Restarted? {
      RestartKeeps(w);
      hide Known, Sorted, Restored, Items;
    } else if Known(e.faults) {
      ObserveKeeps(w.state, e.faults, e.now, e.stop);
      hide Observation, WellKept, Known;
    }
  }

  lemma {:induction false} StoreBacksState(run: seq<Event>)
    requires Durable(run)
    ensures WellKept(After(run).state) && Backed(After(run))
  {
    if run != [] {
      StoreBacksState(run[..|run| - 1]);
      hide Step, WellKept, Backed;
      StepKeeps(After(run[..|run| - 1]), run[|run| - 1]);
    } else {
      hide Last, Entries;
    }
  }

  lemma StepCounts(w: World, e: Event)
    requires WellKept(w.state) && Backed(w) && (e.Restarted? ==> !w.missing)
    ensures
      var s, t := w.state, Step(w, e).state;
      && t.faults == (if e.Observed? && Known(e.faults) then Sorted(e.faults) else s.faults)
      && t.incidents == s.incidents + (if s.faults == [] && t.faults != [] then 1 else 0)
      && t.history == Last(s.history + Announced(s, e))
  {
    LastKeeps(w.state.history);
    if e.Restarted? { RestartKeeps(w); }
    hide Known, Sorted, Backed, Restored, WellKept, Last, SnapshotOf;
  }

  lemma LastKeeps(log: seq<Entry>)
    ensures |log| <= HISTORY_LIMIT ==> Last(log) == log && Last(log + []) == log
  {
    assert log + [] == log;
  }

  /** Keeping the last 32 as one goes is keeping the last 32 at the end. */
  lemma LastOfLast(log: seq<Entry>, more: seq<Entry>)
    ensures Last(Last(log) + more) == Last(log + more)
  {}

  /** Counting survives restarts: in every run the incidents are the times the fault list stopped
      being empty, the fault list is the last one observed, and the history is the last 32 of all
      announcements, whether or not restarts came in between. */
  lemma {:induction false} CountingSurvivesRestarts(run: seq<Event>)
    requires Durable(run)
    ensures
      var s := After(run).state;
      s.incidents == Onsets(run) && s.faults == FaultsNow(run) && s.history == Last(Announcements(run))
  {
    hide Known, Sorted, WellKept, Backed, Step, Announced;
    if run != [] {
      var front, e := run[..|run| - 1], run[|run| - 1];
      CountingSurvivesRestarts(front);
      StoreBacksState(front);
      StepCounts(After(front), e);
      LastOfLast(Announcements(front), Announced(After(front).state, e));
    }
  }

  lemma {:induction false} RestartsDoNotCount(run: seq<Event>)
    ensures Onsets(Uninterrupted(run)) == Onsets(run) && FaultsNow(Uninterrupted(run)) == FaultsNow(run)
  {
    hide Sorted, Known;
    if run != [] {
      var front, e := run[..|run| - 1], run[|run| - 1];
      RestartsDoNotCount(front);
      if e.Observed? {
        assert Uninterrupted(run)[..|Uninterrupted(run)| - 1] == Uninterrupted(front);
      } else {
        assert Uninterrupted(run) == Uninterrupted(front);
      }
    }
  }

  lemma {:induction false} UninterruptedIsDurable(run: seq<Event>)
    ensures Durable(Uninterrupted(run))
  {
    if run != [] {
      var front, e := run[..|run| - 1], run[|run| - 1];
      UninterruptedIsDurable(front);
      hide After;
      if e.Observed? {
        assert Uninterrupted(run)[..|Uninterrupted(run)| - 1] == Uninterrupted(front);
      } else {
        assert Uninterrupted(run) == Uninterrupted(front);
      }
    }
  }

  /** So a run with restarts counts exactly what it would have counted without them. */
  lemma RestartsChangeNoCount(run: seq<Event>)
    requires Durable(run)
    ensures var s, t := After(run).state, After(Uninterrupted(run)).state;
      s.incidents == t.incidents && s.faults == t.faults
  {
    UninterruptedIsDurable(run);
    CountingSurvivesRestarts(run);
    CountingSurvivesRestarts(Uninterrupted(run));
    RestartsDoNotCount(run);
  }

  // ---------- What a restart loses ----------

  /** How many events there were up to the last announcement that reached the store. */
  function SavedAt(run: seq<Event>): (n: nat)
    ensures n <= |run|
  {
    if run == [] then 0
    else
      var e, front := run[|run| - 1], run[..|run| - 1];
      if e.Observed? && e.stored && Announced(After(front).state, e) != [] then |run| else SavedAt(front)
  }

  /** The i-th event is announced. */
  predicate AnnouncedAt(run: seq<Event>, i: nat)
    requires i < |run|
  {
    Announced(After(run[..i]).state, run[i]) != []
  }

  /** The i-th event starts an incident: the fault list was empty, and is not any more. */
  predicate OnsetAt(run: seq<Event>, i: nat)
    requires i < |run|
  {
    FaultsNow(run[..i]) == [] && FaultsNow(run[..i + 1]) != []
  }

  /** Later announcements carry later clocks. */
  predicate Rising(log: seq<Entry>) {
    forall i, j :: 0 <= i < j < |log| ==> log[i].time.clock < log[j].time.clock
  }

  /** The store holds the state of the last stored announcement, and announcements are missing
      there exactly if some came after it. */
  lemma {:induction false} StoreIsSavedState(run: seq<Event>)
    ensures
      var n := SavedAt(run);
      && After(run).store == (if n == 0 then None else Some(SnapshotOf(After(run[..n]).state)))
      && (After(run).missing <==> exists i :: n <= i < |run| && AnnouncedAt(run, i))
  {
    hide Sorted, Known, SnapshotOf, Restored, Observation;
    if run != [] {
      var m := |run| - 1;
      var front, e := run[..m], run[m];
      StoreIsSavedState(front);
      assert run[..|run|] == run && run[..SavedAt(front)] == front[..SavedAt(front)];
      forall i | 0 <= i < m ensures AnnouncedAt(run, i) <==> AnnouncedAt(front, i) {
        assert run[..i] == front[..i];
      }
      assert AnnouncedAt(run, m) <==> Announced(After(front).state, e) != [];
    }
  }

  lemma {:induction false} DurablePrefix(run: seq<Event>, n: nat)
    requires Durable(run) && n <= |run|
    ensures Durable(run[..n])
    decreases |run|
  {
    hide After;
    if n < |run| {
      var front := run[..|run| - 1];
      DurablePrefix(front, n);
      assert front[..n] == run[..n];
    } else {
      assert run[..n] == run;
    }
  }

  lemma RestoredIsWellKept(s: State)
    requires WellKept(s)
    ensures WellKept(Restored(SnapshotOf(s)))
  {
    RestoreInvertsSnapshot(s);
    hide Restored, SnapshotOf, Known, Sorted;
  }

  lemma {:induction false} AlwaysWellKept(run: seq<Event>)
    ensures WellKept(After(run).state)
    decreases |run|
  {
    if run != [] {
      var front, e := run[..|run| - 1], run[|run| - 1];
      AlwaysWellKept(front);
      if e.Restarted? {
        StoreIsSavedState(front);
        AlwaysWellKept(front[..SavedAt(front)]);
        RestoredIsWellKept(After(front[..SavedAt(front)]).state);
      } else if Known(e.faults) {
        ObserveKeeps(After(front).state, e.faults, e.now, e.stop);
      }
      hide Known, Sorted, Restored, SnapshotOf, Observation, SavedAt;
    }
  }

  /** In every run a restart goes back to the last announcement that reached the store. */
  lemma RestartGoesBack(run: seq<Event>)
    ensures
      var s, t := After(run[..SavedAt(run)]).state, After(run + [Restarted]).state;
      t.incidents == s.incidents && t.faults == s.faults && t.history == s.history
  {
    var n := SavedAt(run);
    StoreIsSavedState(run);
    assert (run + [Restarted])[..|run|] == run;
    if n > 0 {
      AlwaysWellKept(run[..n]);
      RestoreInvertsSnapshot(After(run[..n]).state);
    } else {
      assert run[..0] == [];
    }
    hide SnapshotOf, Restored, SavedAt;
  }

  /** The log of a prefix is a prefix of the log, and the same log if nothing was announced since. */
  lemma {:induction false} LogGrows(run: seq<Event>, n: nat)
    requires n <= |run|
    ensures Announcements(run[..n]) <= Announcements(run)
    ensures Announcements(run[..n]) == Announcements(run) <==> forall i :: n <= i < |run| ==> !AnnouncedAt(run, i)
    decreases |run|
  {
    hide After, Announced;
    if n < |run| {
      var m := |run| - 1;
      var front := run[..m];
      LogGrows(front, n);
      assert front[..n] == run[..n];
      forall i | 0 <= i < m ensures AnnouncedAt(run, i) <==> AnnouncedAt(front, i) {
        assert run[..i] == front[..i];
      }
      assert AnnouncedAt(run, m) <==> Announced(After(front).state, run[m]) != [];
    } else {
      assert run[..n] == run;
    }
  }

  lemma {:induction false} OnsetsGrow(run: seq<Event>, n: nat)
    requires n <= |run|
    ensures Onsets(run[..n]) <= Onsets(run)
    ensures Onsets(run[..n]) == Onsets(run) <==> forall i :: n <= i < |run| ==> !OnsetAt(run, i)
    decreases |run|
  {
    hide FaultsNow;
    if n < |run| {
      var m := |run| - 1;
      var front := run[..m];
      OnsetsGrow(front, n);
      assert front[..n] == run[..n] && run[..m + 1] == run;
      forall i | 0 <= i < m ensures OnsetAt(run, i) <==> OnsetAt(front, i) {
        assert run[..i] == front[..i] && run[..i + 1] == front[..i + 1];
      }
      assert OnsetAt(run, m) <==> Onsets(run) == Onsets(front) + 1;
    } else {
      assert run[..n] == run;
    }
  }

  lemma LaterEntryShows(log: seq<Entry>, longer: seq<Entry>)
    requires Rising(longer) && log <= longer && |log| < |longer|
    ensures Last(log) != Last(longer)
  {
    var e := longer[|longer| - 1];
    assert Last(longer)[|Last(longer)| - 1] == e;
    if log != [] {
      assert Last(log)[|Last(log)| - 1] == log[|log| - 1] == longer[|log| - 1];
    }
  }

  /** A restart gives back the incidents, the fault list and the history exactly when no
      announcement is missing in the store. */
  lemma RestartLosesWhatIsMissing(run: seq<Event>)
    requires Durable(run) && Rising(Announcements(run))
    ensures
      var s, t := After(run).state, After(run + [Restarted]).state;
      t.incidents == s.incidents && t.faults == s.faults && t.history == s.history <==> !After(run).missing
  {
    hide After, Last, SavedAt, Announcements, Onsets, AnnouncedAt;
    var n := SavedAt(run);
    var saved := run[..n];
    RestartGoesBack(run);
    StoreIsSavedState(run);
    DurablePrefix(run, n);
    CountingSurvivesRestarts(run);
    CountingSurvivesRestarts(saved);
    LogGrows(run, n);
    if After(run).missing {
      LaterEntryShows(Announcements(saved), Announcements(run));
    } else {
      SavedInFull(run);
    }
  }

  lemma SavedInFull(run: seq<Event>)
    requires Durable(run) && !After(run).missing
    ensures
      var s, t := After(run).state, After(run + [Restarted]).state;
      t.incidents == s.incidents && t.faults == s.faults && t.history == s.history
  {
    StoreBacksState(run);
    RestartKeeps(After(run));
    assert (run + [Restarted])[..|run|] == run;
  }

  /** The incident count survives the restart exactly when no incident began since the last stored
      announcement; otherwise just those incidents are forgotten. */
  lemma RestartLosesOnsets(run: seq<Event>)
    requires Durable(run)
    ensures
      var s, t := After(run).state, After(run + [Restarted]).state;
      && t.incidents == Onsets(run[..SavedAt(run)]) <= s.incidents
      && (t.incidents == s.incidents <==> forall i :: SavedAt(run) <= i < |run| ==> !OnsetAt(run, i))
  {
    hide After, SavedAt, Onsets, OnsetAt, Announcements;
    var n := SavedAt(run);
    RestartGoesBack(run);
    DurablePrefix(run, n);
    CountingSurvivesRestarts(run);
    CountingSurvivesRestarts(run[..n]);
    OnsetsGrow(run, n);
  }

  /** So an incident whose announcement could not be saved is forgotten. */
  lemma UnsavedIsForgotten(onset: Event)
    requires onset.Observed? && Known(onset.faults) && onset.faults != [] && !onset.stored
    ensures Durable([onset]) && Rising(Announcements([onset]))
    ensures After([onset]).missing
    ensures After([onset]).state.incidents == 1 && After([onset, Restarted]).state.incidents == 0
  {
    Picked(FAULT_CODES, onset.faults);
    assert onset.faults[0] in Sorted(onset.faults);
    hide Pick, Known, Sorted;
    assert [onset, Restarted][..1] == [onset] && [onset][..0] == [];
    assert After([onset]) == Step(World(BLANK, None, false), onset);
    assert |Announcements([])| == 0 && |Announcements([onset])| <= 1;
  }

  /** And one that is missing need not cost an incident: the second announcement of the same
      incident is lost here, but not the count. */
  lemma UnsavedMayKeepTheCount(onset: Event, again: Event)
    requires onset.Observed? && Known(onset.faults) && onset.faults != [] && onset.stored
    requires again.Observed? && again.faults == onset.faults && again.stop != onset.stop && !again.stored
    ensures Durable([onset, again]) && After([onset, again]).missing
    ensures After([onset, again]).state.incidents == After([onset, again, Restarted]).state.incidents == 1
  {
    var run := [onset, again];
    Picked(FAULT_CODES, onset.faults);
    assert onset.faults[0] in Sorted(onset.faults);
    hide Pick, Known, Sorted, SnapshotOf, Last;
    assert run[..1] == [onset] && [onset][..0] == [];
    assert FaultsNow([onset]) == Sorted(onset.faults);
    assert After([onset]) == Step(World(BLANK, None, false), onset);
    assert After(run) == Step(After([onset]), again);
    assert SavedAt([onset]) == 1 && SavedAt(run) == 1;
    assert Durable([]) && Durable([onset]) && Durable(run);
    RestartLosesOnsets(run);
    assert run + [Restarted] == [onset, again, Restarted];
  }

  // ---------- What is announced ----------

  lemma {:induction false} PickInOrder(codes: seq<string>, faults: seq<string>, i: nat, j: nat)
    returns (a: nat, b: nat)
    requires i < j < |Pick(codes, faults)|
    ensures a < b < |codes| && codes[a] == Pick(codes, faults)[i] && codes[b] == Pick(codes, faults)[j]
    decreases |codes|
  {
    var rest := codes[1..];
    var kept := codes[0] in faults;
    if kept && i == 0 {
      Picked(rest, faults);
      var c := Pick(rest, faults)[j - 1];
      assert c in Pick(rest, faults);
      var k :| 0 <= k < |rest| && rest[k] == c;
      a, b := 0, k + 1;
    } else {
      var shift := if kept then 1 else 0;
      a, b := PickInOrder(rest, faults, i - shift, j - shift);
      a, b := a + 1, b + 1;
    }
  }

  /** A list of faults is kept as the known ones it names. */
  lemma SortedExactly(faults: seq<string>, c: string)
    ensures c in Sorted(faults) <==> c in FAULT_CODES && c in faults
  {
    Picked(FAULT_CODES, faults);
  }

  /** And in the order of the alphabet. */
  lemma SortedInOrder(faults: seq<string>, i: nat, j: nat) returns (a: nat, b: nat)
    requires i < j < |Sorted(faults)|
    ensures a < b < |FAULT_CODES| && FAULT_CODES[a] == Sorted(faults)[i] && FAULT_CODES[b] == Sorted(faults)[j]
  {
    a, b := PickInOrder(FAULT_CODES, faults, i, j);
  }

  /** The day of the latest announcement since the last restart. */
  function LastNotice(run: seq<Event>): Option<int> {
    if run == [] then None
    else
      var e, front := run[|run| - 1], run[..|run| - 1];
      if e.Restarted? then None
      else if Announced(After(front).state, e) != [] then Some(e.now.day) else LastNotice(front)
  }

  lemma RestoredIsQuiet(v: Saved)
    ensures !Restored(v).announced
  {
    hide Entries, Last;
  }

  lemma {:induction false} NoticeIsKept(run: seq<Event>)
    ensures LastNotice(run).Some? <==> After(run).state.announced
    ensures LastNotice(run).Some? ==> After(run).state.noticeDay == LastNotice(run)
  {
    hide Sorted, Known, Restored, Last;
    if run != [] {
      var front, e := run[..|run| - 1], run[|run| - 1];
      NoticeIsKept(front);
      var w := After(front);
      if e.Restarted? && w.store.Some? {
        RestoredIsQuiet(w.store.value);
      }
    }
  }

  /** The two lists name the same faults. */
  predicate SameFaults(x: seq<string>, y: seq<string>) {
    forall c :: c in FAULT_CODES ==> (c in x <==> c in y)
  }

  /** In every run an observation of known faults is announced exactly if the faults are others than
      before; or there are any, and the stop confirmation has changed, or the day's notice is due:
      the latest announcement since the restart, if any, was on another day. */
  lemma AnnouncedExactly(run: seq<Event>, e: Event)
    requires e.Observed? && Known(e.faults)
    ensures
      var s := After(run).state;
      AnnouncedAt(run + [e], |run|) <==>
        || !SameFaults(e.faults, s.faults)
        || (e.faults != [] && (e.stop != s.stopConfirmed || LastNotice(run) != Some(e.now.day)))
  {
    hide After, LastNotice, Sorted, WellKept, Known, SameFaults, Last, SnapshotOf;
    var s := After(run).state;
    assert (run + [e])[..|run|] == run;
    NoticeIsKept(run);
    AlwaysWellKept(run);
    SortedSame(e.faults, s);
    SortedEmpty(e.faults);
  }

  lemma {:induction false} NonePicked(codes: seq<string>)
    ensures Pick(codes, []) == []
  {
    if codes != [] { NonePicked(codes[1..]); }
  }

  lemma KeptIsSorted(s: State)
    requires WellKept(s)
    ensures Sorted(s.faults) == s.faults
  {
    if s.history == [] {
      NonePicked(FAULT_CODES);
    }
    hide Pick, Known;
  }

  lemma SortedSame(faults: seq<string>, s: State)
    requires Known(faults) && WellKept(s)
    ensures Sorted(faults) == s.faults <==> SameFaults(faults, s.faults)
  {
    KeptIsSorted(s);
    Picked(FAULT_CODES, faults);
    Picked(FAULT_CODES, s.faults);
    hide WellKept, Pick;
    if SameFaults(faults, s.faults) {
      PickAgain(FAULT_CODES, faults, s.faults);
    }
  }

  lemma SortedEmpty(faults: seq<string>)
    requires Known(faults)
    ensures Sorted(faults) == [] <==> faults == []
  {
    Picked(FAULT_CODES, faults);
    if faults != [] {
      assert faults[0] in FAULT_CODES && faults[0] in faults;
      assert faults[0] in Sorted(faults);
    } else {
      NonePicked(FAULT_CODES);
    }
    hide Pick;
  }

  /** The faulty samples of a run, and the time of the latest one without fault. */
  function FaultySamples(run: seq<Event>): nat {
    if run == [] then 0
    else
      var e := run[|run| - 1];
      FaultySamples(run[..|run| - 1]) + if e.Observed? && Known(e.faults) && e.faults != [] then 1 else 0
  }

  function LastHealthy(run: seq<Event>): Option<Time> {
    if run == [] then None
    else
      var e := run[|run| - 1];
      if e.Observed? && e.faults == [] then Some(e.now) else LastHealthy(run[..|run| - 1])
  }

  /** The stop confirmation of the latest sample that counts. */
  function LastStop(run: seq<Event>): Option<bool> {
    if run == [] then None
    else
      var e := run[|run| - 1];
      if e.Observed? && Known(e.faults) then e.stop else LastStop(run[..|run| - 1])
  }

  lemma NoneIsKnown()
    ensures Known([])
  {
  }

  lemma SampleIsCounted(w: World, e: Event)
    requires e.Observed?
    ensures
      var s, next := w.state, Step(w, e).state;
      && next.failedSamples == s.failedSamples + (if Known(e.faults) && e.faults != [] then 1 else 0)
      && next.lastSuccessAt == (if e.faults == [] then Some(e.now) else s.lastSuccessAt)
      && next.stopConfirmed == if Known(e.faults) then e.stop else s.stopConfirmed
  {
    hide Sorted, Known, Last, SnapshotOf;
    NoneIsKnown();
    if Known(e.faults) { SortedEmpty(e.faults); }
  }

  /** Without restarts the faulty samples are counted one by one, the time of success is that of the
      latest sample without fault, and the stop confirmation that of the latest sample. */
  lemma {:induction false} SamplesAreCounted(run: seq<Event>)
    requires forall i :: 0 <= i < |run| ==> run[i].Observed?
    ensures After(run).state.failedSamples == FaultySamples(run)
    ensures After(run).state.lastSuccessAt == LastHealthy(run)
    ensures After(run).state.stopConfirmed == LastStop(run)
  {
    if run != [] {
      var front, e := run[..|run| - 1], run[|run| - 1];
      SamplesAreCounted(front);
      SampleIsCounted(After(front), e);
      hide Step, Known;
    }
  }

  /** The place of the latest readable item. */
  ghost predicate LatestReadable(items: seq<Item>, k: int) {
    0 <= k < |items| && Readable(items[k]) && forall j :: k < j < |items| ==> !Readable(items[j])
  }

  lemma {:induction false} LatestEntry(items: seq<Item>, k: int)
    requires LatestReadable(items, k)
    ensures
      var history := Entries(items);
      && history != []
      && history[|history| - 1].faults == Sorted(items[k].faults)
      && history[|history| - 1].stopConfirmed == items[k].stopConfirmed
  {
    hide Readable, Sorted;
    if k < |items| - 1 {
      LatestEntry(items[..|items| - 1], k);
    }
  }

  lemma {:induction false} NoEntry(items: seq<Item>)
    requires forall k :: 0 <= k < |items| ==> !Readable(items[k])
    ensures Entries(items) == []
  {
    if items != [] {
      NoEntry(items[..|items| - 1]);
    }
  }

  /** Whatever the store hands back, a negative count is taken as zero, and the current faults are the
      known ones of the latest readable among the last 32 items; none if none of them is readable. */
  lemma RestoredExactly(v: Saved)
    ensures
      var s, items := Restored(v), Last(v.history);
      && s.incidents == (if v.incidents < 0 then 0 else v.incidents)
      && s.failedSamples == (if v.failedSamples < 0 then 0 else v.failedSamples)
      && s.lastSuccessAt == v.lastSuccessAt
      && (forall k :: LatestReadable(items, k) ==>
            s.faults == Sorted(items[k].faults) && s.stopConfirmed == items[k].stopConfirmed)
      && ((forall k :: 0 <= k < |items| ==> !Readable(items[k])) ==> s.faults == [] && s.stopConfirmed == None)
  {
    hide Readable, Sorted, Last, Entries;
    var items := Last(v.history);
    forall k | LatestReadable(items, k)
      ensures Entries(items) != [] && Restored(v).faults == Sorted(items[k].faults)
              && Restored(v).stopConfirmed == items[k].stopConfirmed
    {
      LatestEntry(items, k);
    }
    if forall k :: 0 <= k < |items| ==> !Readable(items[k]) { NoEntry(items); }
  }

  /** Reads the saved items one by one, skipping those that are not readable. */
  method ReadEntries(items: seq<Item>) returns (history: seq<Entry>)
    ensures history == Entries(items)
  {
    hide Sorted, Known;
    history := [];
    for k := 0 to |items|
      invariant history == Entries(items[..k])
    {
      assert items[..k + 1][..k] == items[..k];
      var i := items[k];
      if Readable(i) { history := history + [Entry(i.time.value, Sorted(i.faults), i.stopConfirmed)]; }
    }
    assert items[..|items|] == items;
  }

  class CommunicationState {
    var incidents: nat
    var failedSamples: nat
    var faults: seq<string>
    var stopConfirmed: Option<bool>
    var lastSuccessAt: Option<Time>
    var history: seq<Entry>
    var announced: bool
    var noticeDay: Option<int>

    function Now(): State
      reads this
    {
      State(incidents, failedSamples, faults, stopConfirmed, lastSuccessAt, history, announced, noticeDay)
    }

    constructor (saved: Option<Saved>)
      ensures Now() == if saved.Some? then Restored(saved.value) else BLANK
    {
      incidents, failedSamples, faults, stopConfirmed := 0, 0, [], None;
      lastSuccessAt, history, announced, noticeDay := None, [], false, None;
      new;
      hide Entries;
      if saved.Some? {
        var v := saved.value;
        if v.incidents >= 0 { incidents := v.incidents; }
        if v.failedSamples >= 0 { failedSamples := v.failedSamples; }
        lastSuccessAt := v.lastSuccessAt;
        history := ReadEntries(Last(v.history));
        if history != [] {
          faults := history[|history| - 1].faults;
          stopConfirmed := history[|history| - 1].stopConfirmed;
        }
      }
    }

    /** Whether the notification needs updating; unknown codes raise and change nothing. */
    method Observe(codes: seq<string>, now: Time, stop: Option<bool>) returns (announce: Option<bool>)
      modifies this
      ensures !Known(codes) ==> announce == None && Now() == old(Now())
      ensures Known(codes) ==> announce.Some? && (Now(), announce.value) == Observation(old(Now()), codes, now, stop)
    {
      if !Known(codes) { return None; }
      hide Sorted, Known;
      var current := Sorted(codes);
      var changed := current != faults || (current != [] && stop != stopConfirmed);
      if current != [] && faults == [] { incidents := incidents + 1; }
      if current != [] { failedSamples := failedSamples + 1; } else { lastSuccessAt := Some(now); }
      var due := changed || (current != [] && (!announced || noticeDay != Some(now.day)));
      faults, stopConfirmed := current, stop;
      if due {
        announced := true;
        noticeDay := Some(now.day);
        history := history + [Entry(now, current, stop)];
        history := Last(history);
      }
      return Some(due);
    }

    method Snapshot() returns (v: Saved)
      ensures v == SnapshotOf(Now())
    {
      v := Saved(incidents, failedSamples, lastSuccessAt, Items(history));
    }
  }
}
