/** Writing a control register and deciding from read-backs whether the inverter applied it
    (modbus_number.py). */
module ReadbackVerification {
  import opened Basics
  import opened Registers

  const READBACK_ATTEMPTS := 3
  const POWER_REL_TOL := 0.005
  const POWER_MIN_TOL := 5.0
  const CLOSE_REL_TOL := 0.000001
  const CLOSE_ABS_TOL := 0.000001

  /** What sets one number entity apart: its range and step, whether it is in watts, whether its
      register reads the limit in effect (1038, 1040), needs cyclic renewal, is the write-only
      curtailment register, or is polled back. */
  datatype Control = Control(min: real, max: real, step: real, watts: bool, readOnly: bool,
                             effectiveLimit: bool, cyclic: bool, curtailment: bool, polledBack: bool)

  function Max(x: real, y: real): real { if x < y then y else x }

  function Min(x: real, y: real): real { if x < y then x else y }

  predicate IsClose(a: real, b: real, absTol: real) {
    Abs(a - b) <= Max(CLOSE_REL_TOL * Max(Abs(a), Abs(b)), absTol)
  }

  function Tolerance(c: Control, value: real): real {
    var tol := Max(POWER_MIN_TOL, Abs(value) * POWER_REL_TOL);
    if !c.watts then CLOSE_ABS_TOL else if c.step > 0.0 then Min(tol, c.step / 2.0) else tol
  }

  /** The read-back confirms the command. */
  predicate Matches(c: Control, observed: real, value: real) {
    if value == 0.0 || observed == 0.0 then observed == value
    else if c.watts && c.step > 0.0 && Abs(observed - value) >= c.step / 2.0 then false
    else IsClose(observed, value, Tolerance(c, value))
  }

  /** The read-back is the command as the battery management limits it, not an ignored raise. */
  predicate Limited(c: Control, observed: real, value: real, previous: Option<real>) {
    c.effectiveLimit && 0.0 <= observed < value
    && (previous.None? || previous.value >= value || !Matches(c, observed, previous.value))
  }

  /** One read-back: a fresh finite value on the connection of the write, or nothing usable. */
  datatype Reading = Reads(x: real) | Unreadable

  /** One attempt: the value, whether the write was acknowledged, the read-backs there would be,
      whether the connection changed meanwhile, the value of the completed poll, and whether that
      poll succeeded on the connection of the write. */
  datatype Attempt = Attempt(value: real, written: bool, first: Reading, second: Reading, third: Reading,
                             reconnects: bool, newest: Option<real>, steady: bool)

  datatype Result =
    | Refused | WriteFailed | Above | Below | Unread | Invalidated | Confirmed | AppliedLimited

  /** What is remembered: the last command on this connection, how many there were, the command in
      effect before an ignored one, and the outcome of the last. */
  datatype Entity = Entity(commanded: Option<real>, revision: nat, ignored: Option<(nat, real)>,
                           last: Option<(nat, Result)>)

  function Previous(s: Entity): Option<real> {
    if s.ignored.Some? && s.ignored.value.0 == s.revision then Some(s.ignored.value.1) else s.commanded
  }

  /** What the read-backs say. */
  datatype Verdict = Verified | OnlyLimited(observed: real) | Unverified(observed: real) | NotRead

  function Judge(c: Control, a: Attempt, previous: Option<real>): Verdict {
    if a.first.Unreadable? then NotRead
    else if Matches(c, a.first.x, a.value) then Verified
    else if a.second.Unreadable? then NotRead
    else if Matches(c, a.second.x, a.value) then Verified
    else if a.third.Unreadable? then NotRead
    else if Matches(c, a.third.x, a.value) then Verified
    else if Limited(c, a.third.x, a.value, previous) then OnlyLimited(a.third.x)
    else Unverified(a.third.x)
  }

  function OutcomeOf(v: Verdict, value: real): Result {
    match v
    case NotRead => Unread
    case Verified => Confirmed
    case OnlyLimited(x) => if x > value then Above else Below
    case Unverified(x) => if x > value then Above else Below
  }

  /** The verdict ends the call before the refresh. */
  predicate Fails(c: Control, v: Verdict) {
    if c.cyclic then !v.Verified? else v.Unverified? || v.NotRead?
  }

  /** What the completed poll makes of a verdict that did not fail. */
  function Settle(c: Control, a: Attempt, v: Verdict, previous: Option<real>): Result {
    var matched := a.newest.Some? && Matches(c, a.newest.value, a.value);
    var limited := if c.polledBack
      then !matched && a.newest.Some? && Limited(c, a.newest.value, a.value, previous) else v.OnlyLimited?;
    if !a.steady || (c.polledBack && !matched && !limited) then Invalidated
    else if limited then AppliedLimited else Confirmed
  }

  function Remember(last: Option<(nat, Result)>, revision: nat, r: Result): Option<(nat, Result)> {
    if last.None? || revision >= last.value.0 then Some((revision, r)) else last
  }

  function Attempted(c: Control, s: Entity, a: Attempt): (Entity, Result) {
    if c.readOnly || !(c.min <= a.value <= c.max) then (s, Refused)
    else if !a.written then (s, WriteFailed)
    else
      var previous := Previous(s);
      var revision := s.revision + 1;
      var v := if c.curtailment then Verified else Judge(c, a, previous);
      var t := s.(commanded := if a.reconnects then None else Some(a.value), revision := revision);
      if Fails(c, v) then
        var outcome := OutcomeOf(v, a.value);
        var noted := !c.cyclic && outcome == Below && previous.Some? && c.effectiveLimit;
        (t.(ignored := if noted then Some((revision, previous.value)) else s.ignored,
            last := Remember(s.last, revision, outcome)), outcome)
      else
        var r := Settle(c, a, v, previous);
        (t.(ignored := if r == Invalidated then s.ignored else None, last := Remember(s.last, revision, r)), r)
  }

  function After(c: Control, s: Entity, run: seq<Attempt>): Entity {
    if run == [] then s else Attempted(c, After(c, s, run[..|run| - 1]), run[|run| - 1]).0
  }

  function ResultAt(c: Control, s: Entity, run: seq<Attempt>, k: nat): Result
    requires k < |run|
  {
    Attempted(c, After(c, s, run[..k]), run[k]).1
  }

  predicate Applied(r: Result) { r == Confirmed || r == AppliedLimited }

  // ---------- What a match means ----------

  /** A watt reading never confirms two commands that lie a full step apart. */
  lemma OneCommandPerReading(c: Control, x: real, a: real, b: real)
    requires c.watts && c.step > 0.0 && Matches(c, x, a) && Matches(c, x, b)
    ensures Abs(a - b) < c.step
  {}

  lemma LessThanMax(d: real, x: real, y: real)
    ensures d <= Max(x, y) <==> d <= x || d <= y
    ensures d <= Min(x, y) <==> d <= x && d <= y
  {}

  /** When a reading confirms a command: zero only zero; otherwise at a distance of at most a
      millionth of either, or, in watts, of 5 W or half a per cent of the command, and there always
      of less than half a step. */
  lemma MatchesExactly(c: Control, x: real, value: real)
    ensures x == 0.0 || value == 0.0 ==> (Matches(c, x, value) <==> x == value)
    ensures x != 0.0 && value != 0.0 ==>
      var d := Abs(x - value);
      var near := 1000000.0 * d <= Abs(x) || 1000000.0 * d <= Abs(value);
      (Matches(c, x, value) <==>
        if c.watts then (c.step > 0.0 ==> 2.0 * d < c.step) && (near || d <= 5.0 || 200.0 * d <= Abs(value))
        else near || 1000000.0 * d <= 1.0)
  {
    var d := Abs(x - value);
    LessThanMax(d, CLOSE_REL_TOL * Max(Abs(x), Abs(value)), Tolerance(c, value));
    LessThanMax(1000000.0 * d, Abs(x), Abs(value));
    LessThanMax(d, POWER_MIN_TOL, Abs(value) * POWER_REL_TOL);
    LessThanMax(d, Max(POWER_MIN_TOL, Abs(value) * POWER_REL_TOL), c.step / 2.0);
    hide Abs, Max, Min;
  }

  function ReadingAt(a: Attempt, i: nat): Reading
    requires i < 3
  {
    if i == 0 then a.first else if i == 1 then a.second else a.third
  }

  /** Up to the i-th, the read-backs all worked. */
  predicate ReadsUpTo(a: Attempt, i: nat)
    requires i < 3
  {
    forall j :: 0 <= j <= i ==> ReadingAt(a, j).Reads?
  }

  /** One of up to three read-backs confirms the command, and none before it failed. */
  predicate Seen(c: Control, a: Attempt) {
    exists i :: 0 <= i < 3 && ReadsUpTo(a, i) && ReadingAt(a, i).Reads? && Matches(c, ReadingAt(a, i).x, a.value)
  }

  /** The value is below the command as the limit in effect: not the old command still standing. */
  predicate HeldBelow(c: Control, x: real, value: real, previous: Option<real>) {
    && c.effectiveLimit && 0.0 <= x && x < value
    && (previous.Some? && previous.value < value ==> !Matches(c, x, previous.value))
  }

  lemma JudgeExactly(c: Control, a: Attempt, previous: Option<real>)
    ensures Judge(c, a, previous).Verified? <==> Seen(c, a)
    ensures Judge(c, a, previous).NotRead? <==> !Seen(c, a) && !ReadsUpTo(a, 2)
    ensures Judge(c, a, previous).OnlyLimited? <==>
      !Seen(c, a) && ReadsUpTo(a, 2) && HeldBelow(c, a.third.x, a.value, previous)
    ensures Judge(c, a, previous).OnlyLimited? || Judge(c, a, previous).Unverified? ==>
      a.third.Reads? && Judge(c, a, previous).observed == a.third.x && a.third.x != a.value
  {
    assert a.first == ReadingAt(a, 0) && a.second == ReadingAt(a, 1) && a.third == ReadingAt(a, 2);
    assert ReadsUpTo(a, 0) <==> a.first.Reads?;
    assert ReadsUpTo(a, 1) <==> a.first.Reads? && a.second.Reads?;
    assert ReadsUpTo(a, 2) <==> a.first.Reads? && a.second.Reads? && a.third.Reads?;
    if a.third.Reads? {
      MatchesExactly(c, a.third.x, a.value);
    }
    hide ReadsUpTo, ReadingAt, Matches;
  }

  /** What an attempt reports, case by case: refused out of range or mode; failed unacknowledged;
      unreadable when a read-back fails before one confirms; above or below the command when all
      three were read and none confirms it, nor, unless it is cyclic, the limit in effect explains
      it; and otherwise what the completed poll on the same connection shows. */
  lemma ResultExactly(c: Control, s: Entity, a: Attempt)
    ensures
      var r := Attempted(c, s, a).1;
      var allowed := !c.readOnly && c.min <= a.value && a.value <= c.max;
      var written := allowed && a.written;
      var confirmed := c.curtailment || Seen(c, a);
      var readAll := Readable(a);
      var explained := readAll && HeldBelow(c, a.third.x, a.value, Previous(s)) && !c.cyclic;
      var goesOn := written && (confirmed || explained);
      var polled := a.newest.Some? && Matches(c, a.newest.value, a.value);
      var polledBelow := a.newest.Some? && !polled && HeldBelow(c, a.newest.value, a.value, Previous(s));
      && (r == Refused <==> !allowed)
      && (r == WriteFailed <==> allowed && !a.written)
      && (r == Unread <==> written && !confirmed && !readAll)
      && (r == Above <==> written && !confirmed && readAll && !explained && a.third.x > a.value)
      && (r == Below <==> written && !confirmed && readAll && !explained && a.third.x < a.value)
      && (r == Invalidated <==> goesOn && !(a.steady && (c.polledBack ==> polled || polledBelow)))
      && (r == Confirmed <==> goesOn && a.steady && (if c.polledBack then polled else confirmed))
      && (r == AppliedLimited <==> goesOn && a.steady && (if c.polledBack then polledBelow else !confirmed))
  {
    assert Readable(a) <==> ReadsUpTo(a, 2) by {
      assert a.first == ReadingAt(a, 0) && a.second == ReadingAt(a, 1) && a.third == ReadingAt(a, 2);
    }
    JudgeExactly(c, a, Previous(s));
    hide Matches, Judge, Seen, ReadsUpTo, Previous;
  }

  /** In particular a command that is acknowledged, read back and polled back as it was given is
      confirmed. */
  lemma ShownIsConfirmed(c: Control, s: Entity, a: Attempt)
    requires !c.readOnly && c.min <= a.value <= c.max && a.written && a.steady
    requires a.first.Reads? && a.first.x == a.value && (c.polledBack ==> a.newest == Some(a.value))
    ensures Attempted(c, s, a).1 == Confirmed
  {
    MatchesExactly(c, a.value, a.value);
    assert ReadsUpTo(a, 0) && ReadingAt(a, 0) == a.first;
    assert Seen(c, a);
    ResultExactly(c, s, a);
    hide Matches, Attempted;
  }

  /** A shown value speaks for the command: it matches, or is the command as the limit in effect. */
  predicate SpeaksFor(c: Control, x: real, value: real) {
    Matches(c, x, value) || (c.effectiveLimit && 0.0 <= x < value)
  }

  /** A command is reported as applied only if it was acknowledged, the refresh went through on the
      same connection, a read-back spoke for it, and so does the completed poll where the register
      is polled back; as confirmed there only on a match, and a cyclic one only on a matching
      read-back. */
  lemma AppliedWasShown(c: Control, s: Entity, a: Attempt)
    requires Applied(Attempted(c, s, a).1)
    ensures var r := Attempted(c, s, a).1;
      && !c.readOnly && c.min <= a.value <= c.max && a.written && a.steady
      && (!c.curtailment ==>
           || (a.first.Reads? && SpeaksFor(c, a.first.x, a.value))
           || (a.second.Reads? && SpeaksFor(c, a.second.x, a.value))
           || (a.third.Reads? && SpeaksFor(c, a.third.x, a.value)))
      && (c.polledBack ==> a.newest.Some? && SpeaksFor(c, a.newest.value, a.value))
      && (c.polledBack && r == Confirmed ==> Matches(c, a.newest.value, a.value))
      && (c.cyclic && !c.curtailment ==>
           || (a.first.Reads? && Matches(c, a.first.x, a.value))
           || (a.second.Reads? && Matches(c, a.second.x, a.value))
           || (a.third.Reads? && Matches(c, a.third.x, a.value)))
  {
    hide Matches;
  }

  /** The limits in effect: watts, a positive step, polled back, not cyclic. */
  predicate EffectiveLimit(c: Control) {
    c.effectiveLimit && c.watts && c.step > 0.0 && c.polledBack && !c.cyclic && !c.curtailment && !c.readOnly
  }

  /** Every value the device shows during the attempt is still the command p, and the attempt
      wants at least one step more. */
  predicate RaisesAbove(c: Control, a: Attempt, p: real) {
    && p + c.step <= a.value && c.min <= a.value <= c.max
    && (a.first.Reads? ==> Shows(c, a.first.x, p)) && (a.second.Reads? ==> Shows(c, a.second.x, p))
    && (a.third.Reads? ==> Shows(c, a.third.x, p)) && (a.newest.Some? ==> Shows(c, a.newest.value, p))
  }

  predicate Shows(c: Control, x: real, p: real) { x >= 0.0 && Matches(c, x, p) }

  predicate Readable(a: Attempt) { a.first.Reads? && a.second.Reads? && a.third.Reads? }

  ghost predicate KeepsReading(c: Control, run: seq<Attempt>, p: real) {
    forall i :: 0 <= i < |run| ==> RaisesAbove(c, run[i], p)
  }

  /** An earlier attempt was written but could not be read back. */
  ghost predicate Unseen(run: seq<Attempt>, k: nat)
    requires k <= |run|
  {
    exists j :: 0 <= j < k && run[j].written && !Readable(run[j])
  }

  /** The old command is forgotten: the comparison is with nothing, or with a raise itself. */
  predicate Forgot(c: Control, s: Entity, p: real) {
    Previous(s).None? || Previous(s).value >= p + c.step
  }

  /** A value that shows p neither confirms the raise nor another raise before it. */
  lemma ShownIsNoRaise(c: Control, x: real, p: real, value: real)
    requires EffectiveLimit(c) && p >= 0.0 && Shows(c, x, p) && value >= p + c.step
    ensures !Matches(c, x, value) && 0.0 <= x < value
  {
    if Matches(c, x, value) { OneCommandPerReading(c, x, p, value); }
    assert p != 0.0 && x != 0.0 ==> Abs(x - p) < c.step / 2.0;
  }

  lemma JudgeRaise(c: Control, a: Attempt, p: real, previous: Option<real>)
    requires EffectiveLimit(c) && p >= 0.0 && RaisesAbove(c, a, p)
    requires previous == Some(p) || previous.None? || previous.value >= p + c.step
    ensures !Readable(a) ==> Judge(c, a, previous) == NotRead
    ensures Readable(a) ==>
      Judge(c, a, previous) == (if previous == Some(p) then Unverified(a.third.x) else OnlyLimited(a.third.x))
      && a.third.x < a.value
  {
    if a.first.Reads? { ShownIsNoRaise(c, a.first.x, p, a.value); }
    if a.second.Reads? { ShownIsNoRaise(c, a.second.x, p, a.value); }
    if a.third.Reads? { LimitedUnlessRemembered(c, a.third.x, p, a.value, previous); }
    hide Matches, Limited;
  }

  lemma LimitedUnlessRemembered(c: Control, x: real, p: real, value: real, previous: Option<real>)
    requires EffectiveLimit(c) && p >= 0.0 && Shows(c, x, p) && value >= p + c.step
    requires previous == Some(p) || previous.None? || previous.value >= p + c.step
    ensures !Matches(c, x, value) && x < value
    ensures Limited(c, x, value, previous) <==> previous != Some(p)
  {
    ShownIsNoRaise(c, x, p, value);
    if previous.Some? && previous != Some(p) { ShownIsNoRaise(c, x, p, previous.value); }
    hide Matches;
  }

  /** A remembered command never belongs to a write still to come. */
  predicate Dated(s: Entity) { s.ignored.Some? ==> s.ignored.value.0 <= s.revision }

  /** One raise: while the old command is remembered a readable attempt fails and keeps it
      remembered, an unreadable one forgets it; once forgotten, only the poll can still fail it. */
  lemma RaiseStep(c: Control, s: Entity, a: Attempt, p: real)
    requires EffectiveLimit(c) && p >= 0.0 && RaisesAbove(c, a, p)
    requires Dated(s) && (Previous(s) == Some(p) || Forgot(c, s, p))
    ensures var (t, r) := Attempted(c, s, a);
      && Dated(t)
      && (Previous(t) == Some(p) <==> Previous(s) == Some(p) && !(a.written && !Readable(a)))
      && (Previous(t) != Some(p) ==> Forgot(c, t, p))
      && (a.written && Readable(a) ==>
           if Previous(s) == Some(p) then r == Below
           else r == if a.steady && a.newest.Some? then AppliedLimited else Invalidated)
      && (a.written && !Readable(a) ==> r == Unread)
      && (!a.written ==> r == WriteFailed)
  {
    JudgeRaise(c, a, p, Previous(s));
    if a.newest.Some? { LimitedUnlessRemembered(c, a.newest.value, p, a.value, Previous(s)); }
    hide Matches, Limited, Judge;
  }

  /** What an attempt leaves: nothing when it was refused or not acknowledged; otherwise one command
      more, its outcome, and for the next attempt's comparison the command given, none after a
      reconnect, or still the old one when this one read below as an ignored raise does. */
  lemma NotedExactly(c: Control, s: Entity, a: Attempt)
    requires Dated(s) && (s.last.Some? ==> s.last.value.0 <= s.revision)
    ensures
      var (t, r) := Attempted(c, s, a);
      if r == Refused || r == WriteFailed then t == s
      else
        && Dated(t) && t.revision == s.revision + 1 && t.last == Some((t.revision, r))
        && Previous(t) == if r == Below && !c.cyclic && c.effectiveLimit && Previous(s).Some? then Previous(s)
                          else if a.reconnects then None else Some(a.value)
  {
    hide Judge, Matches, Limited;
  }

  /** The outcome of the latest acknowledged attempt. */
  function Latest(c: Control, s: Entity, run: seq<Attempt>): Option<Result> {
    if run == [] then None
    else
      var r := ResultAt(c, s, run, |run| - 1);
      if r == Refused || r == WriteFailed then Latest(c, s, run[..|run| - 1]) else Some(r)
  }

  /** What is remembered as the last command's outcome is, in every run, that of the latest
      acknowledged attempt. */
  lemma {:induction false} LastIsLatest(c: Control, s: Entity, run: seq<Attempt>)
    requires Dated(s) && s.last.None?
    ensures var t := After(c, s, run);
      && Dated(t) && (t.last.Some? ==> t.last.value.0 <= t.revision)
      && Latest(c, s, run) == if t.last.Some? then Some(t.last.value.1) else None
  {
    if run != [] {
      var m := |run| - 1;
      hide Attempted, Dated;
      LastIsLatest(c, s, run[..m]);
      NotedExactly(c, After(c, s, run[..m]), run[m]);
    }
  }

  lemma {:induction false} RememberedUntilUnseen(c: Control, s: Entity, run: seq<Attempt>, p: real, k: nat)
    requires EffectiveLimit(c) && p >= 0.0 && KeepsReading(c, run, p)
    requires Dated(s) && Previous(s) == Some(p) && k <= |run|
    ensures Previous(After(c, s, run[..k])) == Some(p) <==> !Unseen(run, k)
    ensures Unseen(run, k) ==> Forgot(c, After(c, s, run[..k]), p)
    ensures Dated(After(c, s, run[..k]))
  {
    if k > 0 {
      var m := k - 1;
      RememberedUntilUnseen(c, s, run, p, m);
      assert run[..k][..m] == run[..m];
      assert RaisesAbove(c, run[m], p);
      hide Attempted, RaisesAbove, EffectiveLimit, Previous;
      RaiseStep(c, After(c, s, run[..m]), run[m], p);
      assert Unseen(run, k) <==> Unseen(run, m) || (run[m].written && !Readable(run[m]));
    }
  }

  /** While 1038 or 1040 keeps showing the command p, an attempt with at least one step more that
      is acknowledged and fully read back is reported as applied exactly when an earlier
      acknowledged attempt could not be read back and the refresh goes through. So with every
      read-back readable, no repetition of an ignored raise is ever reported as applied. */
  lemma IgnoredRaiseIsReported(c: Control, s: Entity, run: seq<Attempt>, p: real, k: nat)
    requires EffectiveLimit(c) && p >= 0.0 && KeepsReading(c, run, p) && Dated(s) && Previous(s) == Some(p)
    requires k < |run| && run[k].written && Readable(run[k])
    ensures Applied(ResultAt(c, s, run, k)) <==> Unseen(run, k) && run[k].steady && run[k].newest.Some?
    ensures !Unseen(run, k) ==> ResultAt(c, s, run, k) == Below
  {
    RememberedUntilUnseen(c, s, run, p, k);
    assert RaisesAbove(c, run[k], p);
    hide Attempted, RaisesAbove, EffectiveLimit;
    RaiseStep(c, After(c, s, run[..k]), run[k], p);
  }

  /** Such a run: 2000 W in effect, a raise to 4000 W whose read-back is lost, and the same raise
      again, still ignored, reported as applied. */
  lemma LostReadbackHidesIgnoredRaise()
    ensures
      var c := Control(0.0, 10000.0, 100.0, true, false, true, false, false, true);
      var lost := Attempt(4000.0, true, Unreadable, Unreadable, Unreadable, false, Some(2000.0), true);
      var again := Attempt(4000.0, true, Reads(2000.0), Reads(2000.0), Reads(2000.0), false, Some(2000.0), true);
      ResultAt(c, Entity(Some(2000.0), 1, None, None), [lost, again], 1) == AppliedLimited
  {
    var c := Control(0.0, 10000.0, 100.0, true, false, true, false, false, true);
    var lost := Attempt(4000.0, true, Unreadable, Unreadable, Unreadable, false, Some(2000.0), true);
    var again := Attempt(4000.0, true, Reads(2000.0), Reads(2000.0), Reads(2000.0), false, Some(2000.0), true);
    var s := Entity(Some(2000.0), 1, None, None);
    var run := [lost, again];
    assert Shows(c, 2000.0, 2000.0);
    RememberedUntilUnseen(c, s, run, 2000.0, 1);
    assert run[0].written && !Readable(run[0]);
    hide Attempted, Matches;
    RaiseStep(c, After(c, s, run[..1]), again, 2000.0);
  }

  // ---------- The entity ----------

  class ModbusNumberEntity {
    const control: Control
    var commanded: Option<real>
    var revision: nat
    var ignoredBaseline: Option<(nat, real)>
    var lastCommand: Option<(nat, Result)>

    function Now(): Entity
      reads this
    {
      Entity(commanded, revision, ignoredBaseline, lastCommand)
    }

    constructor (c: Control)
      ensures control == c && Now() == Entity(None, 0, None, None)
    {
      control := c;
      commanded, revision, ignoredBaseline, lastCommand := None, 0, None, None;
    }

    /** The loop over the read-backs. */
    method ReadBack(a: Attempt, previous: Option<real>) returns (v: Verdict)
      ensures v == Judge(control, a, previous)
    {
      var readings := [a.first, a.second, a.third];
      v := NotRead;
      assert readings[0] == a.first && readings[1] == a.second && readings[2] == a.third;
      hide Matches, Limited;
      for attempt := 0 to READBACK_ATTEMPTS
        invariant forall i :: 0 <= i < attempt ==> readings[i].Reads? && !Matches(control, readings[i].x, a.value)
        invariant attempt == READBACK_ATTEMPTS ==> v == Judge(control, a, previous)
      {
        assert attempt == 0 || attempt == 1 || attempt == 2;
        assert attempt > 0 ==> readings[0].Reads? && !Matches(control, readings[0].x, a.value);
        assert attempt > 1 ==> readings[1].Reads? && !Matches(control, readings[1].x, a.value);
        if readings[attempt].Unreadable? { return NotRead; }
        var observed := readings[attempt].x;
        if Matches(control, observed, a.value) { return Verified; }
        if attempt == READBACK_ATTEMPTS - 1 {
          v := if Limited(control, observed, a.value, previous) then OnlyLimited(observed) else Unverified(observed);
        }
      }
    }

    method RecordLastCommand(rev: nat, r: Result)
      modifies this`lastCommand
      ensures lastCommand == Remember(old(lastCommand), rev, r)
    {
      if lastCommand.None? || rev >= lastCommand.value.0 { lastCommand := Some((rev, r)); }
    }

    method SetNativeValue(a: Attempt) returns (r: Result)
      modifies this
      ensures (Now(), r) == Attempted(control, old(Now()), a)
    {
      hide Matches, Limited, Judge, Remember;
      if control.readOnly || !(control.min <= a.value <= control.max) { return Refused; }
      var previous := commanded;
      if ignoredBaseline.Some? && ignoredBaseline.value.0 == revision {
        previous := Some(ignoredBaseline.value.1);
      }
      if !a.written { return WriteFailed; }
      revision := revision + 1;
      commanded := if a.reconnects then None else Some(a.value);
      var v := Verified;
      if !control.curtailment { v := ReadBack(a, previous); }
      var outcome := OutcomeOf(v, a.value);
      if control.cyclic && !v.Verified? {
        RecordLastCommand(revision, outcome);
        return outcome;
      }
      if !v.Verified? && !v.OnlyLimited? {
        RecordLastCommand(revision, outcome);
        if outcome == Below && previous.Some? && control.effectiveLimit {
          ignoredBaseline := Some((revision, previous.value));
        }
        return outcome;
      }
      r := Settle(control, a, v, previous);
      RecordLastCommand(revision, r);
      if r != Invalidated { ignoredBaseline := None; }
    }
  }
}
