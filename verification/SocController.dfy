/** The state-of-charge controller: one session of its control loop, and the warning about a
    battery that moves against the command (battery_soc_controller.py). */
module SocController {
  import opened Registers

  const MAX_FAILURES := 5
  const MAX_TEMPERATURE := 48.0
  const DIVERGENCE_DEADBAND := 200.0
  const DIVERGENCE_CYCLES := 4

  datatype Direction = Charge | Discharge

  datatype Cancelling = Never | BeforeCommand | AfterCommand

  /** What one turn of the loop meets: the target when the turn starts and when the state of charge
      has been read, that reading, the battery temperature, the inverter state, whether the write
      succeeds, the battery power in the poll cache, and where the session is cancelled. */
  datatype Turn = Turn(guard: Option<real>, soc: Option<real>, target: Option<real>, temperature: Option<real>,
                       inverter: Option<int>, writes: bool, power: Option<real>, cancelling: Cancelling)

  datatype Exit = TargetReached | ReadFailures | WriteFailures | Stopped | Cleared | Failed

  /** The divergence counters and latch. */
  datatype Latch = Latch(count: nat, clear: nat, warned: bool)

  /** What one turn says about divergence; a turn without a command or a check says nothing. */
  datatype Evidence = Diverging | Clean | Broken

  function Notes(l: Latch, e: Evidence): (Latch, bool) {
    match e
    case Broken => (Latch(0, 0, l.warned), false)
    case Clean =>
      if !l.warned then (Latch(0, l.clear, false), false)
      else if l.clear + 1 >= DIVERGENCE_CYCLES then (Latch(0, 0, false), false)
      else (Latch(0, l.clear + 1, true), false)
    case Diverging =>
      var warns := l.count + 1 >= DIVERGENCE_CYCLES && !l.warned;
      (Latch(l.count + 1, 0, l.warned || warns), warns)
  }

  /** How a power reading counts against a command (positive is discharge). */
  function Judged(d: Direction, power: Option<real>): Evidence {
    if power.None? then Broken
    else if d == Charge && power.value > DIVERGENCE_DEADBAND then Diverging
    else if d == Discharge && power.value < -DIVERGENCE_DEADBAND then Diverging
    else Clean
  }

  datatype Session = Session(driving: Option<Direction>, readFails: nat, writeFails: nat, latch: Latch,
                             ended: Option<Exit>)

  const BEGIN := Session(None, 0, 0, Latch(0, 0, false), None)

  /** What a turn did: the direction it commanded, what it said about divergence, and whether it warned. */
  datatype Deed = Deed(command: Option<Direction>, evidence: Option<Evidence>, warned: bool)

  const NO_DEED := Deed(None, None, false)

  predicate Reached(driving: Option<Direction>, soc: real, target: real) {
    soc == target || (driving == Some(Charge) && soc >= target) || (driving == Some(Discharge) && soc <= target)
  }

  predicate Paused(t: Turn) {
    || (t.temperature.Some? && t.temperature.value > MAX_TEMPERATURE)
    || (t.inverter.Some? && t.inverter.value in {0, 1, 10, 15})
  }

  /** The commanding part of a turn. */
  function Command(s: Session, t: Turn, d: Direction): (Session, Deed) {
    var driven := s.(driving := Some(d));
    if !t.writes then
      var failed := driven.(writeFails := s.writeFails + 1);
      if failed.writeFails >= MAX_FAILURES
      then
        (failed.(ended := Some(if t.cancelling == AfterCommand then Stopped else WriteFailures)),
         Deed(Some(d), None, false))
      else if t.cancelling == AfterCommand then (failed.(ended := Some(Stopped)), Deed(Some(d), None, false))
      else (failed.(latch := Notes(s.latch, Broken).0), Deed(Some(d), Some(Broken), false))
    else if t.cancelling == AfterCommand
    then (driven.(writeFails := 0, ended := Some(Stopped)), Deed(Some(d), None, false))
    else
      var e := Judged(d, t.power);
      var (latch, warns) := Notes(s.latch, e);
      (driven.(writeFails := 0, latch := latch), Deed(Some(d), Some(e), warns))
  }

  function Step(s: Session, t: Turn): (Session, Deed) {
    if s.ended.Some? then (s, NO_DEED)
    else if t.guard.None? then (s.(ended := Some(Cleared)), NO_DEED)
    else if t.cancelling == BeforeCommand then (s.(ended := Some(Stopped)), NO_DEED)
    else if t.soc.None? then
      var fails := s.readFails + 1;
      (s.(readFails := fails, ended := if fails >= MAX_FAILURES then Some(ReadFailures) else None), NO_DEED)
    else
      var s := s.(readFails := 0);
      if t.target.None? then (s.(ended := Some(Failed)), NO_DEED)
      else if Reached(s.driving, t.soc.value, t.target.value) then (s.(ended := Some(TargetReached)), NO_DEED)
      else if Paused(t) then (s, NO_DEED)
      else Command(s, t, if t.soc.value < t.target.value then Charge else Discharge)
  }

  function After(run: seq<Turn>): Session {
    if run == [] then BEGIN else Step(After(run[..|run| - 1]), run[|run| - 1]).0
  }

  function DeedAt(run: seq<Turn>, k: nat): Deed
    requires k < |run|
  {
    Step(After(run[..k]), run[k]).1
  }

  // ---------- Direction and ending ----------

  lemma AfterOne(run: seq<Turn>, k: nat)
    requires k < |run|
    ensures After(run[..k + 1]) == Step(After(run[..k]), run[k]).0
  {
    assert run[..k + 1][..k] == run[..k];
  }

  /** The direction remembered is exactly that of every command so far. */
  lemma {:induction false} DrivingIsCommanded(run: seq<Turn>, k: nat)
    requires k <= |run|
    ensures forall i :: 0 <= i < k && DeedAt(run, i).command.Some? ==> DeedAt(run, i).command == After(run[..k]).driving
    ensures After(run[..k]).driving.Some? ==>
      exists i :: 0 <= i < k && DeedAt(run, i).command == After(run[..k]).driving
  {
    if k > 0 {
      var m := k - 1;
      DrivingIsCommanded(run, m);
      AfterOne(run, m);
      StepDrives(After(run[..m]), run[m]);
      assert DeedAt(run, m) == Step(After(run[..m]), run[m]).1;
      hide Step, After;
      var was, now := After(run[..m]).driving, After(run[..k]).driving;
      if was.Some? {
        var i :| 0 <= i < m && DeedAt(run, i).command == was;
      }
      hide DeedAt;
    }
  }

  lemma StepDrives(s: Session, t: Turn)
    ensures var (n, d) := Step(s, t);
      && (s.driving.Some? ==> n.driving == s.driving)
      && (d.command.Some? ==> d.command == n.driving)
      && (n.driving != s.driving ==> d.command == n.driving)
  {
    hide Notes, Judged;
    if s.driving.Some? {
      match s.driving.value
      case Charge =>
      case Discharge =>
    }
  }

  /** One session never commands both charging and discharging, however the target changes and
      the state of charge jumps. */
  lemma OneDirectionPerSession(run: seq<Turn>, i: nat, j: nat)
    requires i < |run| && j < |run| && DeedAt(run, i).command.Some? && DeedAt(run, j).command.Some?
    ensures DeedAt(run, i).command == DeedAt(run, j).command
  {
    DrivingIsCommanded(run, |run|);
  }

  /** Turn k drove the battery in direction d before. */
  ghost predicate Drove(run: seq<Turn>, k: nat, d: Direction)
    requires k <= |run|
  {
    exists i :: 0 <= i < k && DeedAt(run, i).command == Some(d)
  }

  /** The session ends as reached exactly when the state of charge is read and stands at the
      target, or at or beyond it in the direction the session was driving. */
  lemma ReachedInDirection(run: seq<Turn>, k: nat)
    requires k < |run| && After(run[..k]).ended.None?
    requires run[k].guard.Some? && run[k].cancelling != BeforeCommand
    ensures After(run[..k + 1]).ended == Some(TargetReached) <==>
      && run[k].soc.Some? && run[k].target.Some?
      && (|| run[k].soc.value == run[k].target.value
          || (Drove(run, k, Charge) && run[k].soc.value >= run[k].target.value)
          || (Drove(run, k, Discharge) && run[k].soc.value <= run[k].target.value))
  {
    AfterOne(run, k);
    DrivingIsCommanded(run, k);
    DriveDecides(run, k, Charge);
    DriveDecides(run, k, Discharge);
    hide Drove, After, DeedAt, Notes, Judged;
  }

  lemma DriveDecides(run: seq<Turn>, k: nat, d: Direction)
    requires k <= |run|
    ensures Drove(run, k, d) <==> After(run[..k]).driving == Some(d)
  {
    DrivingIsCommanded(run, k);
    hide After, DeedAt;
  }

  /** Turns before k were running, and the last n of them could not read the state of charge. */
  function Unread(run: seq<Turn>): nat {
    if run == [] || run[|run| - 1].soc.Some? then 0 else Unread(run[..|run| - 1]) + 1
  }

  lemma {:induction false} ReadFailsCount(run: seq<Turn>)
    requires After(run).ended.None?
    ensures After(run).readFails == Unread(run) < MAX_FAILURES
  {
    if run != [] {
      RunningBefore(run);
      ReadFailsCount(run[..|run| - 1]);
      hide Command;
      CommandKeepsReads(After(run[..|run| - 1]).(readFails := 0), run[|run| - 1], Charge);
      CommandKeepsReads(After(run[..|run| - 1]).(readFails := 0), run[|run| - 1], Discharge);
    }
  }

  lemma CommandKeepsReads(s: Session, t: Turn, d: Direction)
    ensures Command(s, t, d).0.readFails == s.readFails
    ensures Command(s, t, d).0.ended != Some(ReadFailures) || s.ended == Some(ReadFailures)
  {}

  lemma RunningBefore(run: seq<Turn>)
    requires run != [] && After(run).ended.None?
    ensures After(run[..|run| - 1]).ended.None?
  {}

  /** The session gives up reading exactly at the fifth unreadable turn in a row. */
  lemma GivesUpAtFifthUnread(run: seq<Turn>, t: Turn)
    requires After(run).ended.None? && t.guard.Some? && t.cancelling != BeforeCommand
    ensures Step(After(run), t).0.ended == Some(ReadFailures) <==> t.soc.None? && Unread(run) == MAX_FAILURES - 1
  {
    ReadFailsCount(run);
    CommandKeepsReads(After(run).(readFails := 0), t, Charge);
    CommandKeepsReads(After(run).(readFails := 0), t, Discharge);
    hide Command, After, Unread;
  }

  /** A command is only ever given by a running session whose target stands, with the state of
      charge read and not at the target, the battery not above 48 degrees and the inverter not in
      one of its off states; it drives toward the target, and repeats the session's direction. */
  lemma CommandsTowardTarget(run: seq<Turn>, k: nat)
    requires k < |run| && DeedAt(run, k).command.Some?
    ensures var s, t, d := After(run[..k]), run[k], DeedAt(run, k).command.value;
      && s.ended.None? && t.guard.Some? && t.soc.Some? && t.target.Some?
      && (d == Charge <==> t.soc.value < t.target.value) && t.soc.value != t.target.value
      && (t.temperature.Some? ==> t.temperature.value <= MAX_TEMPERATURE)
      && (t.inverter.Some? ==> t.inverter.value !in {0, 1, 10, 15})
      && (s.driving.Some? ==> s.driving == Some(d))
  {
    StepDrives(After(run[..k]), run[k]);
    hide Notes, Judged, After;
  }

  /** And it is given whenever all of that holds: a running turn off the target that nothing pauses
      commands the battery toward the target. */
  lemma CommandsWheneverItMay(run: seq<Turn>, k: nat)
    requires k < |run| && After(run[..k]).ended.None?
    requires run[k].guard.Some? && run[k].cancelling != BeforeCommand && run[k].soc.Some? && run[k].target.Some?
    ensures
      var t := run[k];
      var soc, target := t.soc.value, t.target.value;
      var reached := soc == target || (Drove(run, k, Charge) && soc >= target)
                     || (Drove(run, k, Discharge) && soc <= target);
      var hot := t.temperature.Some? && t.temperature.value > 48.0;
      var off := t.inverter.Some? && (t.inverter.value == 0 || t.inverter.value == 1 || t.inverter.value == 10
                                      || t.inverter.value == 15);
      DeedAt(run, k).command ==
        if reached || hot || off then None else Some(if soc < target then Charge else Discharge)
  {
    DriveDecides(run, k, Charge);
    DriveDecides(run, k, Discharge);
    hide Drove, After, Notes, Judged;
  }

  /** The latest commands in a row whose write failed. */
  function FailedWrites(run: seq<Turn>): nat {
    if run == [] then 0
    else
      var front, t := run[..|run| - 1], run[|run| - 1];
      if DeedAt(run, |run| - 1).command.None? then FailedWrites(front)
      else if t.writes then 0 else FailedWrites(front) + 1
  }

  lemma StepWrites(s: Session, t: Turn)
    ensures
      var (n, d) := Step(s, t);
      && n.writeFails == (if d.command.None? then s.writeFails else if t.writes then 0 else s.writeFails + 1)
      && (n.ended == Some(WriteFailures) && s.ended.None? <==>
            s.ended.None? && d.command.Some? && !t.writes && s.writeFails + 1 >= 5 && t.cancelling != AfterCommand)
  {
    hide Notes, Judged, Reached, Paused;
  }

  lemma {:induction false} WriteFailsCount(run: seq<Turn>)
    ensures After(run).writeFails == FailedWrites(run)
  {
    if run != [] {
      var front, t := run[..|run| - 1], run[|run| - 1];
      WriteFailsCount(front);
      assert DeedAt(run, |run| - 1) == Step(After(front), t).1;
      StepWrites(After(front), t);
      hide Step;
    }
  }

  /** The session gives up writing exactly with a fifth failed write in a row. */
  lemma GivesUpAtFifthFailure(run: seq<Turn>, t: Turn)
    requires After(run).ended.None?
    ensures
      var longer := run + [t];
      After(longer).ended == Some(WriteFailures) <==>
        && DeedAt(longer, |run|).command.Some? && !t.writes && FailedWrites(run) + 1 >= 5
        && t.cancelling != AfterCommand
  {
    assert (run + [t])[..|run|] == run;
    WriteFailsCount(run);
    StepWrites(After(run), t);
    hide Step, FailedWrites;
  }

  /** What a command says about divergence: movement of more than 200 W against it, discharging
      while it charges or charging while it discharges; a failed write or a missing sample breaks
      the evidence; a session that ends with the turn, or a turn without command, says nothing. */
  lemma EvidenceExactly(run: seq<Turn>, k: nat)
    requires k < |run|
    ensures
      var t, d := run[k], DeedAt(run, k);
      var says := d.command.Some? && t.cancelling != AfterCommand && After(run[..k + 1]).ended.None?;
      var against := t.power.Some? &&
        (if d.command == Some(Charge) then t.power.value > 200.0 else t.power.value < -200.0);
      && (d.evidence.Some? <==> says)
      && (says ==>
            && (d.evidence == Some(Broken) <==> !t.writes || t.power.None?)
            && (d.evidence == Some(Diverging) <==> t.writes && against)
            && (d.evidence == Some(Clean) <==> t.writes && t.power.Some? && !against))
  {
    AfterOne(run, k);
    hide After, Reached, Paused, Notes;
  }

  // ---------- The divergence warning ----------

  /** The evidence of a session, turn by turn; turns that say nothing leave no trace. */
  function EvidenceOf(run: seq<Turn>): seq<Evidence> {
    if run == [] then []
    else
      var d := DeedAt(run, |run| - 1);
      EvidenceOf(run[..|run| - 1]) + if d.evidence.Some? then [d.evidence.value] else []
  }

  function Noted(es: seq<Evidence>): Latch {
    if es == [] then Latch(0, 0, false) else Notes(Noted(es[..|es| - 1]), es[|es| - 1]).0
  }

  predicate WarnsAt(es: seq<Evidence>, k: nat)
    requires k < |es|
  {
    Notes(Noted(es[..k]), es[k]).1
  }

  /** The session's latch is that of its evidence. */
  lemma {:induction false} LatchFollowsEvidence(run: seq<Turn>)
    ensures After(run).latch == Noted(EvidenceOf(run))
  {
    if run != [] {
      var front, t := run[..|run| - 1], run[|run| - 1];
      LatchFollowsEvidence(front);
      assert DeedAt(run, |run| - 1) == Step(After(front), t).1;
      StepNotes(After(front), t);
      hide Step, Notes, DeedAt;
      var d := Step(After(front), t).1;
      if d.evidence.Some? {
        assert (EvidenceOf(front) + [d.evidence.value])[..|EvidenceOf(front)|] == EvidenceOf(front);
      } else {
        assert EvidenceOf(run) == EvidenceOf(front);
      }
    }
  }

  lemma StepNotes(s: Session, t: Turn)
    ensures var (n, d) := Step(s, t);
      if d.evidence.Some? then (n.latch, d.warned) == Notes(s.latch, d.evidence.value)
      else n.latch == s.latch && !d.warned
  {
    hide Judged, Reached, Paused;
  }

  /** A turn warns exactly when its evidence does. */
  lemma TurnWarnsWithEvidence(run: seq<Turn>)
    requires run != []
    ensures DeedAt(run, |run| - 1).warned <==>
      EvidenceOf(run) != EvidenceOf(run[..|run| - 1]) && WarnsAt(EvidenceOf(run), |EvidenceOf(run)| - 1)
  {
    var front, t := run[..|run| - 1], run[|run| - 1];
    LatchFollowsEvidence(front);
    StepNotes(After(front), t);
    hide Step, Notes;
    var es, d := EvidenceOf(front), DeedAt(run, |run| - 1);
    if d.evidence.Some? {
      assert (es + [d.evidence.value])[..|es|] == es;
      assert |es + [d.evidence.value]| == |es| + 1;
    }
  }

  /** The four pieces of evidence from m on are all e. */
  predicate FourOf(es: seq<Evidence>, m: int, e: Evidence) {
    0 <= m && m + 4 <= |es| && es[m] == e && es[m + 1] == e && es[m + 2] == e && es[m + 3] == e
  }

  /** How many of the latest pieces of evidence are e. */
  function Tail(es: seq<Evidence>, e: Evidence): nat {
    if es == [] || es[|es| - 1] != e then 0 else Tail(es[..|es| - 1], e) + 1
  }

  lemma {:induction false} TailOfFour(es: seq<Evidence>, e: Evidence)
    ensures Tail(es, e) <= |es|
    ensures forall i :: |es| - Tail(es, e) <= i < |es| ==> es[i] == e
    ensures Tail(es, e) < |es| ==> es[|es| - 1 - Tail(es, e)] != e
    ensures Tail(es, e) >= 4 <==> FourOf(es, |es| - 4, e)
  {
    if es != [] {
      var front := es[..|es| - 1];
      TailOfFour(front, e);
      assert forall i :: 0 <= i < |front| ==> front[i] == es[i];
      TailStep(es, e);
    }
  }

  lemma TailStep(es: seq<Evidence>, e: Evidence)
    requires es != []
    ensures Tail(es, e) == if es[|es| - 1] == e then Tail(es[..|es| - 1], e) + 1 else 0
  {}

  /** The counters are the lengths of the latest runs of evidence. */
  lemma {:induction false} LatchCounts(es: seq<Evidence>)
    ensures Noted(es).count == Tail(es, Diverging)
    ensures Noted(es).warned ==> Noted(es).clear == Tail(es, Clean) < 4
    ensures !Noted(es).warned ==> Noted(es).clear == 0
  {
    if es != [] {
      LatchCounts(es[..|es| - 1]);
      TailStep(es, Diverging);
      TailStep(es, Clean);
      hide Tail;
    }
  }

  /** Four clean pieces of evidence in a row after the warning at j. */
  ghost predicate Rearmed(es: seq<Evidence>, j: nat) {
    exists m :: j < m && FourOf(es, m, Clean)
  }

  ghost predicate Standing(es: seq<Evidence>, j: nat) {
    j < |es| && WarnsAt(es, j) && !Rearmed(es, j)
  }

  lemma WarnsEarlier(es: seq<Evidence>, j: nat)
    requires j < |es| - 1
    ensures WarnsAt(es[..|es| - 1], j) <==> WarnsAt(es, j)
    ensures Rearmed(es, j) <==> Rearmed(es[..|es| - 1], j) || (j < |es| - 4 && FourOf(es, |es| - 4, Clean))
  {
    var front := es[..|es| - 1];
    assert front[..j] == es[..j];
    hide Notes, Noted;
    forall m | m != |es| - 4 ensures FourOf(es, m, Clean) <==> FourOf(front, m, Clean) {}
    assert !FourOf(front, |es| - 4, Clean);
    hide FourOf;
    if m :| j < m && FourOf(front, m, Clean) { assert FourOf(es, m, Clean); }
  }

  lemma WarnsOnlyDiverging(es: seq<Evidence>, j: nat)
    requires j < |es| && WarnsAt(es, j)
    ensures es[j] == Diverging
  {}

  /** Four clean samples at the end unset the latch, and only they. */
  lemma LatchStep(es: seq<Evidence>)
    requires es != []
    ensures Noted(es).warned <==>
      (Noted(es[..|es| - 1]).warned && !FourOf(es, |es| - 4, Clean)) || WarnsAt(es, |es| - 1)
  {
    LatchCounts(es[..|es| - 1]);
    TailOfFour(es, Clean);
    TailStep(es, Clean);
    hide Tail, FourOf;
  }

  lemma StandingStep(es: seq<Evidence>, j: nat)
    requires j < |es|
    ensures Standing(es, j) <==>
      if j == |es| - 1 then WarnsAt(es, j) else Standing(es[..|es| - 1], j) && !FourOf(es, |es| - 4, Clean)
  {
    if j == |es| - 1 {
      assert forall m :: j < m ==> !FourOf(es, m, Clean);
    } else {
      WarnsEarlier(es, j);
      if WarnsAt(es, j) { WarnsOnlyDiverging(es, j); }
      assert FourOf(es, |es| - 4, Clean) && es[j] == Diverging ==> j < |es| - 4;
      hide WarnsAt, Rearmed, FourOf;
    }
  }

  /** The latch is set exactly while some warning stands. */
  lemma {:induction false} LatchedWhileStanding(es: seq<Evidence>)
    ensures Noted(es).warned <==> exists j: nat :: Standing(es, j)
  {
    if es != [] {
      var n := |es| - 1;
      var front := es[..n];
      LatchedWhileStanding(front);
      LatchStep(es);
      forall j: nat | j < |es|
        ensures Standing(es, j) <==> if j == n then WarnsAt(es, j) else Standing(front, j) && !FourOf(es, n - 3, Clean)
      {
        StandingStep(es, j);
      }
      StandsWithin(es);
      StandsWithin(front);
      hide Noted, WarnsAt, FourOf, Standing;
      if j: nat :| Standing(front, j) { assert Standing(es, j) || FourOf(es, n - 3, Clean); }
      assert WarnsAt(es, n) ==> Standing(es, n);
    }
  }

  lemma StandsWithin(es: seq<Evidence>)
    ensures forall j: nat :: Standing(es, j) ==> j < |es|
  {}

  /** A warning comes exactly with the fourth diverging sample in a row, if after every earlier
      warning four clean samples came in a row. Missing samples and failed writes break both kinds
      of rows; turns without a command do not. */
  lemma WarningsAreSpaced(es: seq<Evidence>, k: nat)
    requires k < |es|
    ensures WarnsAt(es, k) <==>
      FourOf(es, k - 3, Diverging) && forall j: nat :: j < k && WarnsAt(es, j) ==> Rearmed(es[..k], j)
  {
    var front := es[..k];
    StandsWithin(front);
    LatchCounts(front);
    LatchedWhileStanding(front);
    TailOfFour(es[..k + 1], Diverging);
    TailStep(es[..k + 1], Diverging);
    assert es[..k + 1][..k] == front;
    assert WarnsAt(es, k) <==> es[k] == Diverging && Noted(front).count + 1 >= 4 && !Noted(front).warned;
    forall j: nat | j < k ensures WarnsAt(es, j) <==> WarnsAt(front, j) {
      assert front[..j] == es[..j];
    }
    hide Noted, Tail, Rearmed, Notes, WarnsAt;
    assert FourOf(es, k - 3, Diverging) <==> FourOf(es[..k + 1], k - 3, Diverging);
    forall j: nat | j < k ensures Standing(front, j) <==> WarnsAt(es, j) && !Rearmed(front, j) {}
    hide FourOf, Standing;
    if j: nat :| Standing(front, j) { assert WarnsAt(es, j) && !Rearmed(front, j); }
  }

  // ---------- The controller ----------

  class BatterySocController {
    var divergenceCount: nat
    var divergenceClearCount: nat
    var divergenceWarned: bool

    function Now(): Latch
      reads this
    {
      Latch(divergenceCount, divergenceClearCount, divergenceWarned)
    }

    constructor ()
      ensures Now() == BEGIN.latch
    {
      divergenceCount, divergenceClearCount, divergenceWarned := 0, 0, false;
    }

    method CheckSetpointDivergence(d: Direction, power: Option<real>) returns (warned: bool)
      modifies this
      ensures (Now(), warned) == Notes(old(Now()), Judged(d, power))
    {
      if power.None? {
        divergenceCount, divergenceClearCount := 0, 0;
        return false;
      }
      var diverging := (d == Charge && power.value > DIVERGENCE_DEADBAND)
        || (d == Discharge && power.value < -DIVERGENCE_DEADBAND);
      if !diverging {
        divergenceCount := 0;
        if divergenceWarned {
          divergenceClearCount := divergenceClearCount + 1;
          if divergenceClearCount >= DIVERGENCE_CYCLES {
            divergenceWarned := false;
            divergenceClearCount := 0;
          }
        }
        return false;
      }
      divergenceClearCount := 0;
      divergenceCount := divergenceCount + 1;
      warned := divergenceCount >= DIVERGENCE_CYCLES && !divergenceWarned;
      if warned { divergenceWarned := true; }
    }

    /** The control loop over the turns a session meets: what each turn did, and how the session
        ended, if it did. The latch is cleared for the next session. */
    method RunLoop(turns: seq<Turn>) returns (deeds: seq<Deed>, exit: Option<Exit>)
      requires Now() == BEGIN.latch
      modifies this
      ensures |deeds| <= |turns| && (|deeds| < |turns| ==> exit.Some?)
      ensures forall k :: 0 <= k < |deeds| ==> deeds[k] == DeedAt(turns, k)
      ensures forall k :: |deeds| <= k < |turns| ==> DeedAt(turns, k) == NO_DEED
      ensures exit == After(turns).ended && (exit.Some? ==> Now() == BEGIN.latch)
    {
      var driving: Option<Direction> := None;
      var readFails, writeFails := 0, 0;
      exit := None;
      deeds := [];
      var k := 0;
      while k < |turns| && exit.None?
        invariant 0 <= k == |deeds| <= |turns|
        invariant After(turns[..k]) == Session(driving, readFails, writeFails, Now(), exit)
        invariant forall i :: 0 <= i < k ==> deeds[i] == DeedAt(turns, i)
        decreases |turns| - k
      {
        var t := turns[k];
        AfterOne(turns, k);
        hide DeedAt, After;
        assert DeedAt(turns, k) == Step(After(turns[..k]), t).1 by { DeedIs(turns, k); }
        var deed;
        driving, readFails, writeFails, exit, deed := TakeTurn(driving, readFails, writeFails, t);
        deeds := deeds + [deed];
        k := k + 1;
      }
      EndedStays(turns, k);
      if exit.Some? {
        divergenceCount, divergenceClearCount, divergenceWarned := 0, 0, false;
      }
      assert turns[..|turns|] == turns;
    }

    /** The body of the loop. */
    method TakeTurn(driving0: Option<Direction>, readFails0: nat, writeFails0: nat, t: Turn)
      returns (driving: Option<Direction>, readFails: nat, writeFails: nat, exit: Option<Exit>, deed: Deed)
      modifies this
      ensures (Session(driving, readFails, writeFails, Now(), exit), deed)
           == Step(Session(driving0, readFails0, writeFails0, old(Now()), None), t)
    {
      driving, readFails, writeFails, exit, deed := driving0, readFails0, writeFails0, None, NO_DEED;
      if t.guard.None? { exit := Some(Cleared); return; }
      if t.cancelling == BeforeCommand { exit := Some(Stopped); return; }
      if t.soc.None? {
        readFails := readFails + 1;
        if readFails >= MAX_FAILURES { exit := Some(ReadFailures); }
        return;
      }
      readFails := 0;
      if t.target.None? { exit := Some(Failed); return; }
      var soc, target := t.soc.value, t.target.value;
      var needCharge, needDischarge := soc < target, soc > target;
      if (!needCharge && !needDischarge) || (driving == Some(Charge) && soc >= target)
        || (driving == Some(Discharge) && soc <= target)
      {
        exit := Some(TargetReached);
        return;
      }
      if t.temperature.Some? && t.temperature.value > MAX_TEMPERATURE { return; }
      if t.inverter.Some? && t.inverter.value in {0, 1, 10, 15} { return; }
      var d := if needCharge then Charge else Discharge;
      driving := Some(d);
      deed := Deed(Some(d), None, false);
      if t.writes {
        writeFails := 0;
      } else {
        writeFails := writeFails + 1;
        if writeFails >= MAX_FAILURES {
          exit := Some(if t.cancelling == AfterCommand then Stopped else WriteFailures);
          return;
        }
      }
      if t.cancelling == AfterCommand { exit := Some(Stopped); return; }
      if t.writes {
        var warned := CheckSetpointDivergence(d, t.power);
        deed := Deed(Some(d), Some(Judged(d, t.power)), warned);
      } else {
        divergenceCount, divergenceClearCount := 0, 0;
        deed := Deed(Some(d), Some(Broken), false);
      }
    }
  }

  lemma DeedIs(run: seq<Turn>, k: nat)
    requires k < |run|
    ensures DeedAt(run, k) == Step(After(run[..k]), run[k]).1
  {}

  /** Once ended, a session does nothing more. */
  lemma {:induction false} EndedStays(run: seq<Turn>, k: nat)
    requires k <= |run| && (After(run[..k]).ended.Some? || k == |run|)
    ensures After(run) == After(run[..k])
    ensures forall i :: k <= i < |run| ==> DeedAt(run, i) == NO_DEED
    decreases |run| - k
  {
    if k == |run| {
      assert run[..k] == run;
    } else {
      AfterOne(run, k);
      EndedStays(run, k + 1);
    }
  }
}
