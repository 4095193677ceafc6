/** What a run of the poll machine says about the link and its polls (modbus_coordinator.py): which
    connection it is on, whether it is up, whether the last poll succeeded, and what a write removes
    from the proxy's cache. */
module LinkReports {
  import opened Registers
  import opened QualityFilter
  import opened PollCoordinator

  /** The k-th event connects: the link is re-established, or a poll begins without one. */
  predicate Connects(cfg: Config, run: seq<Event>, k: nat)
    requires k < |run|
  {
    var w := After(cfg, run[..k]);
    !w.closing && (run[k].Reconnect? || (run[k].StartPoll? && w.phase.Idle? && !w.connected))
  }

  /** How often that was. */
  function Connections(cfg: Config, run: seq<Event>): nat {
    if run == [] then 0
    else Connections(cfg, run[..|run| - 1]) + if Connects(cfg, run, |run| - 1) then 1 else 0
  }

  /** Nothing has taken the link down since it was last connected, or since the start. */
  ghost predicate Up(cfg: Config, run: seq<Event>) {
    forall i :: 0 <= i < |run| && (run[i].Disconnect? || run[i].Shutdown?) ==>
      exists k :: i < k < |run| && Connects(cfg, run, k)
  }

  /** How the last poll that ended by itself ended: published to its end, or cut short by the client's
      own shutdown; a poll whose fast registers all failed, or that lost its link, did not succeed. */
  predicate Succeeded(cfg: Config, run: seq<Event>) {
    if run == [] then false
    else
      var ev, front := run[|run| - 1], run[..|run| - 1];
      var w := After(cfg, front);
      if w.phase.Reporting? && ev.EndPoll? then true
      else if w.phase.Fast? && After(cfg, run).phase.Idle? && !ev.CancelPoll? then ev.FailBatch? && w.closing
      else Succeeded(cfg, front)
  }

  /** The link, as one event leaves it. */
  ghost predicate Moves(w: World, ev: Event, v: World) {
    var connects := !w.closing && (ev.Reconnect? || (ev.StartPoll? && w.phase.Idle? && !w.connected));
    && v.gen == w.gen + (if connects then 1 else 0)
    && v.closing == (w.closing || ev.Shutdown?)
    && v.connected == (connects || (w.connected && !ev.Disconnect? && !ev.Shutdown?))
    && v.success == (if w.phase.Reporting? && ev.EndPoll? then true
                     else if w.phase.Fast? && v.phase.Idle? && !ev.CancelPoll? then ev.FailBatch? && w.closing
                     else w.success)
  }

  /** The link and the verdict on the last poll stay. */
  ghost predicate Stays(w: World, v: World) {
    v.gen == w.gen && v.closing == w.closing && v.connected == w.connected && v.success == w.success
  }

  lemma ReadStays(w: World, a: nat, kind: Kind)
    ensures Stays(w, ClientRead(w, a, kind))
    ensures w.phase.Fast? ==> TouchPhase(w.phase, a, Foreign(kind, w.gen)).Fast?
  {
    match kind
    case Genuine =>
    case Substituted =>
    case Rejected =>
  }

  lemma FastMoves(w: World, cfg: Config, suppressed: set<nat>)
    requires w.phase.Fast?
    ensures
      var v := FinishFast(w, cfg, w.phase.job, suppressed);
      Stays(w, v.(success := w.success)) && v.success == (!v.phase.Idle? && w.success)
  {
    hide FinishFast, Staged, Unretained, Values;
    FastShape(w, cfg, w.phase.job, suppressed);
  }

  lemma SlowStays(w: World, cfg: Config, job: Job)
    ensures Stays(w, FinishSlow(w, cfg, job))
  {
    hide Staged, Unretained, Values, ObserveBatch, Names;
    BatchLeaves(w, cfg, cfg.slow, w.gen != job.genBefore, job.result);
  }

  lemma PublishStays(w: World, cfg: Config, job: Job)
    ensures Stays(w, PublishStaged(w, cfg, job))
  {
    hide DroppedZeros, StreakAfter, Observable, TagOf;
  }

  lemma SkipStays(w: World)
    ensures Stays(w, SkipNext(w)) && (w.phase.Fast? ==> SkipNext(w).phase.Fast?)
  {
    if w.phase.Fast? {
    } else if w.phase.Slow? {
    }
  }

  lemma FailMoves(w: World, cfg: Config)
    ensures Moves(w, FailBatch, FailedBatch(w, cfg))
  {
    hide Names;
    if w.phase.Fast? {
    } else if w.phase.Slow? {
    }
  }

  lemma SurroundingsMove(w: World, ev: Event)
    requires ev.Tick? || ev.DeviceFailure? || ev.Disconnect? || ev.Reconnect? || ev.Shutdown?
             || ev.CommandWritten? || ev.EndPoll? || ev.CancelPoll?
    ensures Moves(w, ev, Surroundings(w, ev))
  {}

  lemma StepMoves(w: World, cfg: Config, ev: Event)
    ensures Moves(w, ev, Step(w, cfg, ev))
  {
    hide FinishFast, FinishSlow, ReadOne, Overlapping, TouchPhase, PublishStaged, ClientRead, AddItem, SkipNext;
    hide FailedBatch, Surroundings;
    match ev
    case ForeignRead(a, kind) => ReadStays(w, a, kind);
    case ReadNext(outcome) =>
      if (w.phase.Fast? || w.phase.Slow?) && w.phase.rest != [] {
        OneStays(w, w.phase.rest[0], outcome);
      }
    case FinishBatch(suppressed) =>
      if w.phase.Fast? { FastMoves(w, cfg, suppressed); }
      if w.phase.Slow? { SlowStays(w, cfg, w.phase.job); }
    case Publish => if w.phase.Info? { PublishStays(w, cfg, w.phase.job); }
    case FailNext => SkipStays(w);
    case FailBatch => FailMoves(w, cfg);
    case StartPoll =>
    case WriteCommand(_) =>
    case RawWrite(_, _) =>
    case _ => SurroundingsMove(w, ev);
  }

  lemma OneStays(w: World, reg: Register, outcome: Outcome)
    ensures Stays(w, ReadOne(w, reg, outcome).0)
  {
    ReadStays(w, reg.address, outcome.kind);
    hide ClientRead;
  }

  lemma UpGrows(cfg: Config, run: seq<Event>, ev: Event)
    ensures
      var more := run + [ev];
      Up(cfg, more) <==> Connects(cfg, more, |run|) || (Up(cfg, run) && !ev.Disconnect? && !ev.Shutdown?)
  {
    var more := run + [ev];
    assert forall k :: 0 <= k < |run| ==> more[k] == run[k] && more[..k] == run[..k];
    assert forall k :: 0 <= k < |run| ==> (Connects(cfg, more, k) <==> Connects(cfg, run, k));
    if Connects(cfg, more, |run|) { ConnectsIs(cfg, more, |run|); }
    hide Connects;
    if Up(cfg, more) && !Connects(cfg, more, |run|) {
      forall i | 0 <= i < |run| && (run[i].Disconnect? || run[i].Shutdown?)
        ensures exists k :: i < k < |run| && Connects(cfg, run, k)
      {
        assert more[i] == run[i];
        var k :| i < k < |more| && Connects(cfg, more, k);
        assert Connects(cfg, run, k);
      }
      assert more[|run|] == ev;
    } else if Connects(cfg, more, |run|) || (Up(cfg, run) && !ev.Disconnect? && !ev.Shutdown?) {
      forall i | 0 <= i < |more| && (more[i].Disconnect? || more[i].Shutdown?)
        ensures exists k :: i < k < |more| && Connects(cfg, more, k)
      {
        if !Connects(cfg, more, |run|) {
          assert more[i] == run[i];
          var k :| i < k < |run| && Connects(cfg, run, k);
          assert Connects(cfg, more, k);
        }
      }
    }
  }

  lemma ConnectsIs(cfg: Config, run: seq<Event>, k: nat)
    requires k < |run| && Connects(cfg, run, k)
    ensures run[k].Reconnect? || run[k].StartPoll?
  {}

  /** In every run, from the start of a connected client: connections are counted one by one, the
      client closes with the first shutdown, the link is up exactly if nothing has taken it down since
      it was last connected, and the last poll's verdict is that of its ending. */
  lemma {:induction false} LinkTells(cfg: Config, run: seq<Event>)
    ensures
      var w := After(cfg, run);
      && w.gen == 1 + Connections(cfg, run)
      && (w.closing <==> exists i :: 0 <= i < |run| && run[i].Shutdown?)
      && (w.connected <==> Up(cfg, run))
      && (w.success <==> Succeeded(cfg, run))
  {
    if run != [] {
      var front, ev := run[..|run| - 1], run[|run| - 1];
      LinkTells(cfg, front);
      StepMoves(After(cfg, front), cfg, ev);
      assert front + [ev] == run;
      UpGrows(cfg, front, ev);
      hide Step, Up;
    }
  }

  predicate Within(x: int, start: nat, count: nat) { start <= x < start + count }

  /** Two stretches of words have one in common. */
  ghost predicate Meet(a: nat, m: nat, b: nat, n: nat) {
    exists x :: Within(x, a, m) && Within(x, b, n)
  }

  lemma MeetExactly(a: nat, m: nat, b: nat, n: nat)
    requires m > 0 && n > 0
    ensures Meet(a, m, b, n) <==> a < b + n && b < a + m
  {
    var later := if a > b then a else b;
    assert a < b + n && b < a + m ==> Within(later, a, m) && Within(later, b, n);
  }

  /** A raw write removes from the proxy's cache exactly the observations it shares a word with, a
      command exactly that of its own register; neither changes one that stays. */
  lemma WritesForget(w: World, cfg: Config, address: nat, quantity: nat, name: string, n: string)
    requires n in w.observations && quantity > 0 && w.observations[n].item.reg.count > 0
    ensures
      var reg := w.observations[n].item.reg;
      var raw, command := Step(w, cfg, RawWrite(address, quantity)), Step(w, cfg, WriteCommand(name));
      && (n in raw.observations <==> !Meet(reg.address, reg.count, address, quantity))
      && (n in command.observations <==> n != name)
      && (n in raw.observations ==> raw.observations[n] == w.observations[n])
      && (n in command.observations ==> command.observations[n] == w.observations[n])
  {
    var reg := w.observations[n].item.reg;
    MeetExactly(reg.address, reg.count, address, quantity);
    hide Meet;
    hide FinishFast, FinishSlow, ReadOne, PublishStaged, ClientRead;
  }
}
