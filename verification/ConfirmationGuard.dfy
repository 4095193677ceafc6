/** The three-call confirmation of destructive migration services (migration_services.py,
    _ensure_guard_confirmed), over whole runs of calls. */
module ConfirmationGuard {
  datatype Phase = Idle | AwaitingCode | AwaitingFinal

  datatype Guard = Guard(phase: Phase, code: string, expiresAt: real, fingerprint: string)

  const IDLE_GUARD := Guard(Idle, "", 0.0, "")

  const CHALLENGE_TTL := 300.0
  const FINAL_TTL := 60.0

  /** One call: the clock, its arguments (the entered code stripped and in upper case, the
      fingerprint of the payload) and the code the generator would issue. */
  datatype Call = Call(now: real, dryRun: bool, entered: string, finalConfirm: bool,
                       fingerprint: string, generated: string)

  /** What can happen to the guard: a call, or the loss of the store on unload. */
  datatype Event = Invoked(call: Call) | Unloaded

  datatype Outcome = DryRun | Expired | Issued | Changed | Mismatch | Armed | Missing | Authorised | Lost

  predicate Entered(g: Guard, c: Call) { c.entered != "" && c.entered == g.code }

  /** Both fingerprints given, and different. */
  predicate Differs(g: Guard, c: Call) {
    c.fingerprint != "" && g.fingerprint != "" && c.fingerprint != g.fingerprint
  }

  function Answer(g: Guard, c: Call): Outcome {
    if c.dryRun then DryRun
    else if g.phase != Idle && c.now > g.expiresAt then Expired
    else if g.phase == Idle then Issued
    else if Differs(g, c) then Changed
    else if g.phase == AwaitingCode then if Entered(g, c) then Armed else Mismatch
    else if Entered(g, c) && c.finalConfirm then Authorised
    else Missing
  }

  function Next(g: Guard, c: Call): Guard {
    match Answer(g, c)
    case Issued => Guard(AwaitingCode, c.generated, c.now + CHALLENGE_TTL, c.fingerprint)
    case Armed => g.(phase := AwaitingFinal, expiresAt := c.now + FINAL_TTL)
    case Mismatch => g
    case Missing => g
    case _ => IDLE_GUARD
  }

  function After(run: seq<Event>): Guard {
    if run == [] then IDLE_GUARD
    else
      var last := run[|run| - 1];
      if last.Invoked? then Next(After(run[..|run| - 1]), last.call) else IDLE_GUARD
  }

  function OutcomeAt(run: seq<Event>, k: nat): Outcome
    requires k < |run|
  {
    if run[k].Invoked? then Answer(After(run[..k]), run[k].call) else Lost
  }

  /** A call that was turned away and left the guard as it was. */
  predicate Idles(o: Outcome) { o == Mismatch || o == Missing }

  ghost predicate Quiet(run: seq<Event>, lo: nat, hi: nat)
    requires hi <= |run|
  {
    forall m :: lo <= m < hi ==> Idles(OutcomeAt(run, m))
  }

  /** Call i issued a challenge that still stands before call k. */
  ghost predicate Challenged(run: seq<Event>, i: nat, k: nat)
    requires k <= |run|
  {
    i < k && OutcomeAt(run, i) == Issued && Quiet(run, i + 1, k)
  }

  /** Call i issued a challenge, call j armed it, and it still stands before call k. */
  ghost predicate Confirmed(run: seq<Event>, i: nat, j: nat, k: nat)
    requires k <= |run|
  {
    i < j < k && Challenged(run, i, j) && OutcomeAt(run, j) == Armed && Quiet(run, j + 1, k)
  }

  lemma StepOf(run: seq<Event>, k: nat)
    requires k < |run|
    ensures After(run[..k + 1]) == if run[k].Invoked? then Next(After(run[..k]), run[k].call) else IDLE_GUARD
  {
    assert run[..k + 1][..k] == run[..k];
  }

  /** While nothing but turned-away calls happen, the guard stays. */
  lemma {:induction false} QuietKeeps(run: seq<Event>, lo: nat, hi: nat)
    requires lo <= hi <= |run| && Quiet(run, lo, hi)
    ensures After(run[..hi]) == After(run[..lo])
    decreases hi
  {
    if lo != hi {
      assert Idles(OutcomeAt(run, hi - 1));
      QuietKeeps(run, lo, hi - 1);
      StepOf(run, hi - 1);
    }
  }

  lemma ChallengeHeld(run: seq<Event>, i: nat, k: nat)
    requires k <= |run| && Challenged(run, i, k)
    ensures run[i].Invoked?
    ensures After(run[..k])
         == Guard(AwaitingCode, run[i].call.generated, run[i].call.now + CHALLENGE_TTL, run[i].call.fingerprint)
  {
    QuietKeeps(run, i + 1, k);
    StepOf(run, i);
  }

  lemma ConfirmationHeld(run: seq<Event>, i: nat, j: nat, k: nat)
    requires k <= |run| && Confirmed(run, i, j, k)
    ensures run[i].Invoked? && run[j].Invoked?
    ensures After(run[..k])
         == Guard(AwaitingFinal, run[i].call.generated, run[j].call.now + FINAL_TTL, run[i].call.fingerprint)
  {
    ChallengeHeld(run, i, j);
    StepOf(run, j);
    QuietKeeps(run, j + 1, k);
  }

  /** The guard waits for a code exactly when some challenge stands, and for the final call exactly
      when some armed challenge stands. */
  lemma {:induction false} PhaseTellsHistory(run: seq<Event>, k: nat)
    requires k <= |run|
    ensures After(run[..k]).phase == AwaitingCode ==> exists i: nat :: Challenged(run, i, k)
    ensures After(run[..k]).phase == AwaitingFinal ==> exists i: nat, j: nat :: Confirmed(run, i, j, k)
  {
    if k > 0 {
      var m := k - 1;
      PhaseTellsHistory(run, m);
      StepOf(run, m);
      hide Answer, After;
      var o := OutcomeAt(run, m);
      if o == Issued {
        assert Challenged(run, m, k);
      } else if o == Armed {
        ArmedWasWaiting(run, m);
        var i: nat :| Challenged(run, i, m);
        assert Confirmed(run, i, m, k);
      } else if Idles(o) {
        if i: nat :| Challenged(run, i, m) { assert Challenged(run, i, k); }
        if i: nat, j: nat :| Confirmed(run, i, j, m) { assert Confirmed(run, i, j, k); }
      }
    }
  }

  lemma ArmedWasWaiting(run: seq<Event>, m: nat)
    requires m < |run| && OutcomeAt(run, m) == Armed
    ensures After(run[..m]).phase == AwaitingCode
  {}

  /** The fingerprint of a later call does not contradict that of the challenge. */
  predicate Fits(issued: Call, c: Call) {
    issued.fingerprint == "" || c.fingerprint == "" || issued.fingerprint == c.fingerprint
  }

  /** What the three calls of one confirmation look like. */
  ghost predicate ThreeCalls(issue: Call, code: Call, done: Call) {
    && issue.generated != ""
    && code.entered == issue.generated && code.now <= issue.now + CHALLENGE_TTL && Fits(issue, code)
    && done.entered == issue.generated && done.now <= code.now + FINAL_TTL && Fits(issue, done)
    && done.finalConfirm && !issue.dryRun && !code.dryRun && !done.dryRun
  }

  ghost predicate Authorises(run: seq<Event>, i: nat, j: nat, k: nat)
    requires k < |run|
  {
    && Confirmed(run, i, j, k)
    && run[i].Invoked? && run[j].Invoked? && run[k].Invoked?
    && ThreeCalls(run[i].call, run[j].call, run[k].call)
  }

  lemma FinalCall(g: Guard, issue: Call, code: Call, done: Call)
    requires g == Guard(AwaitingFinal, issue.generated, code.now + FINAL_TTL, issue.fingerprint)
    requires Answer(Guard(AwaitingCode, issue.generated, issue.now + CHALLENGE_TTL, issue.fingerprint), code) == Armed
    requires !issue.dryRun
    ensures Answer(g, done) == Authorised <==> ThreeCalls(issue, code, done)
  {}

  lemma ConfirmedDecides(run: seq<Event>, i: nat, j: nat, k: nat)
    requires k < |run| && Confirmed(run, i, j, k)
    ensures OutcomeAt(run, k) == Authorised <==> Authorises(run, i, j, k)
  {
    ConfirmationHeld(run, i, j, k);
    ChallengeHeld(run, i, j);
    if run[k].Invoked? {
      IssuedIsNoDryRun(run, i);
      hide Answer, ThreeCalls;
      FinalCall(After(run[..k]), run[i].call, run[j].call, run[k].call);
    }
  }

  lemma IssuedIsNoDryRun(run: seq<Event>, i: nat)
    requires i < |run| && OutcomeAt(run, i) == Issued
    ensures run[i].Invoked? && !run[i].call.dryRun
  {}

  lemma AuthorisedWasAwaited(run: seq<Event>, k: nat)
    requires k < |run| && OutcomeAt(run, k) == Authorised
    ensures After(run[..k]).phase == AwaitingFinal
  {}

  /** The operation goes ahead exactly as the third of three calls: one issued the challenge, one
      gave its code within 300 seconds, this one repeats it with the final flag within 60 seconds
      of that, all on one payload, and every other call in between was turned away: no dry run,
      expiry, changed payload, unload, new challenge or other authorisation. */
  lemma AuthorisedByThreeCalls(run: seq<Event>, k: nat)
    requires k < |run|
    ensures OutcomeAt(run, k) == Authorised <==> exists i: nat, j: nat :: Authorises(run, i, j, k)
  {
    hide OutcomeAt, After, ThreeCalls;
    if OutcomeAt(run, k) == Authorised {
      AuthorisedWasAwaited(run, k);
      PhaseTellsHistory(run, k);
      var i: nat, j: nat :| Confirmed(run, i, j, k);
      ConfirmedDecides(run, i, j, k);
    }
    if i: nat, j: nat :| Authorises(run, i, j, k) {
      ConfirmedDecides(run, i, j, k);
    }
  }

  /** With the fingerprints the services compute, which are never empty, all three agree. */
  lemma SamePayload(run: seq<Event>, k: nat, i: nat, j: nat)
    requires k < |run| && Authorises(run, i, j, k)
    requires forall m :: 0 <= m < |run| && run[m].Invoked? ==> run[m].call.fingerprint != ""
    ensures run[i].call.fingerprint == run[j].call.fingerprint == run[k].call.fingerprint
  {
    assert run[i].call.fingerprint != "" && run[j].call.fingerprint != "" && run[k].call.fingerprint != "";
  }

  /** One challenge authorises at most once: a second authorisation rests on a challenge issued
      after the first. */
  lemma ChallengeAuthorisesOnce(run: seq<Event>, k: nat, m: nat, i: nat, j: nat)
    requires k < m < |run| && OutcomeAt(run, k) == Authorised && Confirmed(run, i, j, m)
    ensures k < i
  {
    hide Answer, After;
    forall x | i <= x < m ensures OutcomeAt(run, x) != Authorised {
      if x != i && x != j { assert Idles(OutcomeAt(run, x)); }
    }
  }

  /** Only a dry run is answered as one. */
  lemma DryRunIsAsked(run: seq<Event>, k: nat)
    requires k < |run|
    ensures OutcomeAt(run, k) == DryRun <==> run[k].Invoked? && run[k].call.dryRun
  {}

  /** The call lets the operation go ahead. */
  predicate GetsThrough(run: seq<Event>, k: nat)
    requires k < |run|
  {
    OutcomeAt(run, k) == DryRun || OutcomeAt(run, k) == Authorised
  }

  /** In every run a call gets through if and only if it is a dry run, or the third of three calls
      that confirm the operation. */
  lemma GetsThroughExactly(run: seq<Event>, k: nat)
    requires k < |run|
    ensures GetsThrough(run, k) <==>
      (run[k].Invoked? && run[k].call.dryRun) || exists i: nat, j: nat :: Authorises(run, i, j, k)
  {
    hide After, Answer;
    AuthorisedByThreeCalls(run, k);
    DryRunIsAsked(run, k);
    hide OutcomeAt, Authorises;
  }

  /** The guard has just been set up, lost, passed by a dry run or used up. */
  ghost predicate AtRest(run: seq<Event>) {
    run == [] || (
      var last := run[|run| - 1];
      last.Unloaded? || last.call.dryRun || GetsThrough(run, |run| - 1))
  }

  lemma RestIsIdle(run: seq<Event>)
    requires AtRest(run)
    ensures After(run) == IDLE_GUARD
  {}

  /** And the confirmation is there to be had: from rest, three calls that fit together lead to the
      operation, the third and only the third letting it go ahead. */
  lemma ThreeCallsSuffice(run: seq<Event>, issue: Call, code: Call, done: Call)
    requires AtRest(run) && ThreeCalls(issue, code, done)
    ensures
      var longer := run + [Invoked(issue), Invoked(code), Invoked(done)];
      !GetsThrough(longer, |run|) && !GetsThrough(longer, |run| + 1) && GetsThrough(longer, |run| + 2)
  {
    var longer := run + [Invoked(issue), Invoked(code), Invoked(done)];
    var n := |run|;
    RestIsIdle(run);
    assert longer[..n] == run && longer[..n + 1] == run + [Invoked(issue)];
    assert longer[..n + 2] == run + [Invoked(issue), Invoked(code)];
    StepOf(longer, n);
    StepOf(longer, n + 1);
    hide After;
  }

  /** One call more. */
  lemma NextCall(run: seq<Event>, c: Call)
    ensures
      var longer := run + [Invoked(c)];
      && After(longer) == Next(After(run), c)
      && (GetsThrough(longer, |run|) <==>
            Answer(After(run), c) == DryRun || Answer(After(run), c) == Authorised)
  {
    var longer := run + [Invoked(c)];
    assert longer[..|run|] == run;
  }

  /** The guards of all entries and actions, updated in place by each call. */
  class MigrationGuards {
    var guards: map<(string, string), Guard>
    /** The calls so far, by entry and action. */
    ghost var log: map<(string, string), seq<Event>>

    ghost function LogOf(entry: string, action: string): seq<Event>
      reads this
    {
      if (entry, action) in log then log[(entry, action)] else []
    }

    /** Every guard is where its calls have led it. */
    ghost predicate Valid()
      reads this
    {
      forall entry, action :: GuardOf(entry, action) == After(LogOf(entry, action))
    }

    constructor ()
      ensures guards == map[] && log == map[] && Valid()
    {
      guards, log := map[], map[];
    }

    function GuardOf(entry: string, action: string): Guard
      reads this
    {
      if (entry, action) in guards then guards[(entry, action)] else IDLE_GUARD
    }

    method ResetGuard(entry: string, action: string)
      modifies this`guards
      ensures guards == old(guards)[(entry, action) := IDLE_GUARD]
    {
      guards := guards[(entry, action) := IDLE_GUARD];
    }

    /** A call gets through exactly as a dry run or as the third of three calls on this entry and
        action, and no other guard moves. */
    method EnsureConfirmed(entry: string, action: string, c: Call) returns (ok: bool)
      requires Valid()
      modifies this
      ensures Valid()
      ensures LogOf(entry, action) == old(LogOf(entry, action)) + [Invoked(c)]
      ensures forall e, a :: (e, a) != (entry, action) ==>
        LogOf(e, a) == old(LogOf(e, a)) && GuardOf(e, a) == old(GuardOf(e, a))
      ensures
        var run, k := LogOf(entry, action), |old(LogOf(entry, action))|;
        ok <==> c.dryRun || exists i: nat, j: nat :: Authorises(run, i, j, k)
    {
      hide After, GetsThrough, Authorises;
      ghost var before, run := LogOf(entry, action), LogOf(entry, action) + [Invoked(c)];
      NextCall(before, c);
      GetsThroughExactly(run, |before|);
      assert GuardOf(entry, action) == After(before);
      log := log[(entry, action) := run];
      ok := Confirm(entry, action, c);
      forall e, a ensures GuardOf(e, a) == After(LogOf(e, a)) {
        if (e, a) != (entry, action) {
          assert old(GuardOf(e, a)) == After(old(LogOf(e, a)));
        }
      }
    }

    /** The ladder of phases and tests, and what it leaves. */
    method Confirm(entry: string, action: string, c: Call) returns (ok: bool)
      modifies this`guards
      ensures ok <==>
        Answer(old(GuardOf(entry, action)), c) == DryRun || Answer(old(GuardOf(entry, action)), c) == Authorised
      ensures GuardOf(entry, action) == Next(old(GuardOf(entry, action)), c)
      ensures forall k :: k != (entry, action) ==>
        (k in guards <==> k in old(guards)) && (k in guards ==> guards[k] == old(guards)[k])
    {
      if c.dryRun {
        ResetGuard(entry, action);
        return true;
      }
      var key := (entry, action);
      if key !in guards { guards := guards[key := IDLE_GUARD]; }
      var guard := guards[key];
      if guard.phase != Idle && c.now > guard.expiresAt {
        ResetGuard(entry, action);
        return false;
      }
      if guard.phase == Idle {
        guards := guards[key := Guard(AwaitingCode, c.generated, c.now + CHALLENGE_TTL, c.fingerprint)];
        return false;
      }
      if c.fingerprint != "" && guard.fingerprint != "" && c.fingerprint != guard.fingerprint {
        ResetGuard(entry, action);
        return false;
      }
      if guard.phase == AwaitingCode {
        if c.entered == "" || c.entered != guard.code { return false; }
        guards := guards[key := guard.(phase := AwaitingFinal, expiresAt := c.now + FINAL_TTL)];
        return false;
      }
      if c.entered == "" || c.entered != guard.code || !c.finalConfirm { return false; }
      ResetGuard(entry, action);
      return true;
    }
  }
}
