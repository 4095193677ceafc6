/** The back-off of registers answering ILLEGAL_DATA_ADDRESS, over whole sequential runs
    (modbus_client.py). */
module SuppressionRuns {
  import opened Registers
  import opened QualityFilter
  import opened BatchReader
  import opened ReadOrder

  /** What can happen to the strike tables: a register is read, a list of registers is read in
      batches, the tables are reset by the user or restored from storage. */
  datatype Event =
    | Read(address: nat, now: real, reply: Reply)
    | BatchRead(memo: Memo, regs: seq<Register>, now: real, device: Device, gen: nat, e: Endianness, policy: Policy)
    | Reset(now: real)
    | Import(strikes: map<nat, nat>, now: real)
  {
    function Link(): Link
      requires BatchRead?
    {
      BatchReader.Link(device, gen, now, e, policy)
    }
  }

  function Step(u: Backoff, ev: Event): Backoff {
    match ev
    case Read(a, now, reply) =>
      if Suppressed(u, a, now) then u
      else
        var v := Expire(u, a, now);
        (match reply
         case Bytes(_) => ClearStrikes(v, a)
         case IllegalAddress => Strike(v, a, now)
         case _ => v)
    case BatchRead(memo, regs, _, _, _, _, _) =>
      if AllWellFormed(regs) then Batch(Client(memo, u), regs, ev.Link()).client.backoff else u
    case Reset(_) => Backoff(map[], map[])
    case Import(strikes, _) => Backoff(strikes, map[])
  }

  function Run(run: seq<Event>): Backoff {
    if |run| == 0 then Backoff(map[], map[]) else Step(Run(run[..|run| - 1]), run[|run| - 1])
  }

  /** The event sequence drives exactly the strike tables of `read_register`. */
  lemma ReadRegisterSteps(c: Client, reg: Register, link: Link)
    requires WellFormed(reg)
    ensures ReadRegister(c, reg, link).0.backoff
         == Step(c.backoff, Read(reg.address, link.now, RawRead(link.device, reg.address, reg.count)))
  {
    hide Accept;
  }

  // ---------- what a batch does to one address ----------

  /** What the tables hold for one address. */
  datatype Mark = Mark(strikes: Option<nat>, since: Option<real>)

  function MarkAt(u: Backoff, a: nat): Mark {
    Mark(if a in u.strikes then Some(u.strikes[a]) else None,
         if a in u.suppressed then Some(u.suppressed[a]) else None)
  }

  /** The address is as before, struck once or, unless its reads are never answered, cleared. */
  ghost predicate OneOutcome(u: Backoff, v: Backoff, a: nat, now: real, answered: bool) {
    || MarkAt(v, a) == MarkAt(u, a)
    || MarkAt(v, a) == MarkAt(Strike(u, a, now), a)
    || (answered && MarkAt(v, a) == MarkAt(ClearStrikes(u, a), a))
  }

  /** No request that covers the address is answered with words. */
  ghost predicate NeverAnswered(device: Device, a: nat) {
    forall start: nat, n: nat :: start <= a < start + n ==> !RawRead(device, start, n).Bytes?
  }

  /** The registers at the address have words to read, which is so for every register. */
  ghost predicate HasWords(regs: seq<Register>, a: nat) {
    forall reg :: reg in regs && reg.address == a ==> reg.count >= 1
  }

  lemma MarkedAlike(u: Backoff, v: Backoff, a: nat, now: real)
    requires MarkAt(u, a) == MarkAt(v, a)
    ensures MarkAt(Expire(u, a, now), a) == MarkAt(Expire(v, a, now), a)
    ensures MarkAt(Strike(u, a, now), a) == MarkAt(Strike(v, a, now), a)
    ensures MarkAt(ClearStrikes(u, a), a) == MarkAt(ClearStrikes(v, a), a)
    ensures Suppressed(u, a, now) <==> Suppressed(v, a, now)
  {
    assert a in u.strikes <==> MarkAt(u, a).strikes.Some?;
    assert a in v.strikes <==> MarkAt(v, a).strikes.Some?;
    assert a in u.suppressed <==> MarkAt(u, a).since.Some?;
    assert a in v.suppressed <==> MarkAt(v, a).since.Some?;
  }

  /** The outcome depends on the marks alone. */
  lemma OutcomeAlike(u: Backoff, u1: Backoff, v1: Backoff, v: Backoff, a: nat, now: real, answered: bool)
    requires MarkAt(u, a) == MarkAt(u1, a) && OneOutcome(u1, v1, a, now, answered) && MarkAt(v1, a) == MarkAt(v, a)
    ensures OneOutcome(u, v, a, now, answered)
  {
    MarkedAlike(u, u1, a, now);
    hide MarkAt;
  }

  lemma ReadStepAt(o: Outcome, reg: Register, link: Link, a: nat, answered: bool)
    requires WellFormed(reg)
    requires reg.address == a ==> a !in o.client.backoff.suppressed
    requires answered || (NeverAnswered(link.device, a) && HasWords([reg], a))
    ensures
      var u, v := o.client.backoff, ReadStep(o, reg, link).client.backoff;
      && (reg.address != a ==> MarkAt(v, a) == MarkAt(u, a))
      && (reg.address == a ==> OneOutcome(u, v, a, link.now, answered))
  {
    hide Accept, Put;
    var u := o.client.backoff;
    if reg.address == a {
      assert reg in [reg];
      assert u.suppressed - {a} == u.suppressed;
    }
  }

  lemma {:induction false} OneByOneAt(o: Outcome, regs: seq<Register>, link: Link, a: nat, answered: bool)
    requires AllWellFormed(regs) && Distinct(regs)
    requires a in Addresses(regs) ==> a !in o.client.backoff.suppressed
    requires answered || (NeverAnswered(link.device, a) && HasWords(regs, a))
    ensures
      var u, v := o.client.backoff, OneByOne(o, regs, link).client.backoff;
      && (a !in Addresses(regs) ==> MarkAt(v, a) == MarkAt(u, a))
      && (a in Addresses(regs) ==> OneOutcome(u, v, a, link.now, answered))
    decreases |regs|
  {
    hide ReadStep, NeverAnswered, OneOutcome, MarkAt;
    if regs != [] && o.alive {
      var reg, rest := regs[0], regs[1..];
      assert reg in regs && forall x :: x in [reg] ==> x == reg;
      ReadStepAt(o, reg, link, a, answered);
      var o1 := ReadStep(o, reg, link);
      FirstElsewhere(regs);
      if a == reg.address {
        OneByOneAt(o1, rest, link, a, answered);
        OutcomeAlike(o.client.backoff, o.client.backoff, o1.client.backoff,
                     OneByOne(o1, rest, link).client.backoff, a, link.now, answered);
      } else {
        StillUnsuppressed(o.client.backoff, o1.client.backoff, a);
        OneByOneAt(o1, rest, link, a, answered);
        var v := OneByOne(o1, rest, link).client.backoff;
        if a in Addresses(rest) {
          OutcomeAlike(o.client.backoff, o1.client.backoff, v, v, a, link.now, answered);
        }
      }
    } else if a in Addresses(regs) {
      Untouched(o.client.backoff, a, link.now, answered);
    }
  }

  lemma Untouched(u: Backoff, a: nat, now: real, answered: bool)
    ensures OneOutcome(u, u, a, now, answered)
  {}

  lemma StillUnsuppressed(u: Backoff, v: Backoff, a: nat)
    requires MarkAt(u, a) == MarkAt(v, a)
    ensures a in u.suppressed <==> a in v.suppressed
  {
    assert a in u.suppressed <==> MarkAt(u, a).since.Some?;
    assert a in v.suppressed <==> MarkAt(v, a).since.Some?;
  }

  lemma FirstElsewhere(regs: seq<Register>)
    requires Distinct(regs) && regs != []
    ensures Distinct(regs[1..]) && regs[0].address !in Addresses(regs[1..])
  {
    var rest := regs[1..];
    forall reg | reg in rest ensures reg.address != regs[0].address {
      var k :| 0 <= k < |rest| && rest[k] == reg;
      assert regs[k + 1] == reg;
    }
  }

  lemma SliceAt(o: Outcome, reg: Register, bytes: seq<byte>, link: Link, a: nat)
    requires WellFormed(reg) && |bytes| == 2 * reg.count
    ensures
      var u, v := o.client.backoff, AcceptSlice(o, reg, bytes, link).client.backoff;
      && (reg.address != a ==> MarkAt(v, a) == MarkAt(u, a))
      && (reg.address == a ==> OneOutcome(u, v, a, link.now, true))
  {
    hide Accept, Put;
  }

  lemma {:induction false} SlicesAt(o: Outcome, group: seq<Register>, raw: seq<byte>, link: Link, a: nat)
    requires AllWellFormed(group) && Distinct(group) && |raw| == 2 * TotalCount(group)
    ensures
      var u, v := o.client.backoff, AcceptSlices(o, group, raw, link).client.backoff;
      && (a !in Addresses(group) ==> MarkAt(v, a) == MarkAt(u, a))
      && (a in Addresses(group) ==> OneOutcome(u, v, a, link.now, true))
    decreases |group|
  {
    hide AcceptSlice, OneOutcome, MarkAt;
    if group != [] {
      var reg, rest, left := group[0], group[1..], raw[2 * group[0].count..];
      assert WellFormed(reg);
      var o1 := AcceptSlice(o, reg, raw[..2 * reg.count], link);
      SliceAt(o, reg, raw[..2 * reg.count], link, a);
      FirstElsewhere(group);
      SlicesAt(o1, rest, left, link, a);
      var u, u1, v := o.client.backoff, o1.client.backoff, AcceptSlices(o1, rest, left, link).client.backoff;
      if a == reg.address {
        OutcomeAlike(u, u, u1, v, a, link.now, true);
      } else if a in Addresses(rest) {
        OutcomeAlike(u, u1, v, v, a, link.now, true);
      }
    }
  }

  lemma ReadGroupAt(o: Outcome, group: seq<Register>, link: Link, a: nat, answered: bool)
    requires AllWellFormed(group) && Contiguous(group) && Distinct(group)
    requires a in Addresses(group) ==> a !in o.client.backoff.suppressed
    requires answered || (NeverAnswered(link.device, a) && HasWords(group, a))
    ensures
      var u, v := o.client.backoff, ReadGroup(o, group, link).client.backoff;
      && (a !in Addresses(group) ==> MarkAt(v, a) == MarkAt(u, a))
      && (a in Addresses(group) ==> OneOutcome(u, v, a, link.now, answered))
  {
    var reply := RawRead(link.device, group[0].address, TotalCount(group));
    if a in Addresses(group) && !answered {
      var reg :| reg in group && reg.address == a;
      GroupCovers(group, reg);
      assert !reply.Bytes?;
    }
    OneByOneAt(o, group, link, a, answered);
    hide OneByOne, AcceptSlices, OneOutcome, MarkAt, NeverAnswered, Distinct, Contiguous;
    if |group| > 1 && reply.Bytes? {
      SlicesAt(o, group, reply.raw, link, a);
      if a in Addresses(group) {
        assert answered;
      }
    }
  }

  lemma {:induction false} ReadGroupsAt(o: Outcome, groups: seq<seq<Register>>, link: Link, a: nat, answered: bool)
    requires ReadableGroups(groups) && Distinct(Flatten(groups)) && forall g :: g in groups ==> Contiguous(g)
    requires a in Addresses(Flatten(groups)) ==> a !in o.client.backoff.suppressed
    requires answered || (NeverAnswered(link.device, a) && HasWords(Flatten(groups), a))
    ensures
      var u, v := o.client.backoff, ReadGroups(o, groups, link).client.backoff;
      && (a !in Addresses(Flatten(groups)) ==> MarkAt(v, a) == MarkAt(u, a))
      && (a in Addresses(Flatten(groups)) ==> OneOutcome(u, v, a, link.now, answered))
    decreases |groups|
  {
    var u := o.client.backoff;
    if groups == [] || !o.alive {
      Untouched(u, a, link.now, answered);
      return;
    }
    var g, rest := groups[0], groups[1..];
    assert groups == [g] + rest && g in groups && forall h :: h in rest ==> h in groups;
    FlattenCons(g, rest);
    DistinctParts(g, Flatten(rest));
    AddressesAppend(g, Flatten(rest), a);
    hide ReadGroup, OneOutcome, MarkAt, NeverAnswered, Distinct, Contiguous, Flatten, Addresses, HasWords;
    ReadGroupAt(o, g, link, a, answered);
    var o1 := ReadGroup(o, g, link);
    var u1, v := o1.client.backoff, ReadGroups(o1, rest, link).client.backoff;
    if a in Addresses(g) {
      ReadGroupsAt(o1, rest, link, a, answered);
      OutcomeAlike(u, u, u1, v, a, link.now, answered);
    } else {
      StillUnsuppressed(u, u1, a);
      ReadGroupsAt(o1, rest, link, a, answered);
      if a in Addresses(Flatten(rest)) {
        OutcomeAlike(u, u1, v, v, a, link.now, answered);
      }
    }
  }

  lemma AddressesAppend(front: seq<Register>, back: seq<Register>, a: nat)
    requires Distinct(front + back)
    ensures a in Addresses(front + back) <==> a in Addresses(front) || a in Addresses(back)
    ensures a in Addresses(front) ==> a !in Addresses(back)
    ensures HasWords(front + back, a) ==> HasWords(front, a) && HasWords(back, a)
  {
    DistinctParts(front, back);
    hide Distinct;
    assert forall reg :: reg in front + back <==> reg in front || reg in back;
  }

  lemma ExpireAllAt(u: Backoff, regs: seq<Register>, now: real, a: nat)
    ensures MarkAt(ExpireAll(u, regs, now), a)
         == if a in Addresses(regs) then MarkAt(Expire(u, a, now), a) else MarkAt(u, a)
  {
    ExpiredSuppressions(u, regs, now);
    ExpireAllStatus(u, u, regs, now);
    hide ExpireAll, Addresses;
  }

  /** The registers the first pass keeps, and what it leaves at an address. */
  lemma FirstPass(u: Backoff, regs: seq<Register>, now: real, a: nat)
    requires Distinct(regs)
    ensures
      var sorted := SortByAddress(regs);
      var kept := Kept(u, sorted, now);
      && Distinct(kept) && (HasWords(regs, a) ==> HasWords(kept, a))
      && (a in Addresses(kept) <==> a in Addresses(regs) && !Suppressed(u, a, now))
      && (a in Addresses(kept) ==> a !in ExpireAll(u, sorted, now).suppressed)
      && MarkAt(ExpireAll(u, sorted, now), a)
         == if a in Addresses(regs) then MarkAt(Expire(u, a, now), a) else MarkAt(u, a)
  {
    hide MarkAt, Suppressed, Kept, SortByAddress, ExpireAll;
    var sorted := SortByAddress(regs);
    SortedDistinct(regs);
    KeptDistinct(u, sorted, now);
    hide Distinct;
    KeptUnsuppressed(u, sorted, now);
    ExpireAllAt(u, sorted, now, a);
    assert Addresses(sorted) == Addresses(regs);
  }

  /** All that a batch does to one address: an address it does not name, or that is suppressed,
      stays as it is; otherwise an expired suppression goes, and then it is struck once, cleared,
      or left. */
  lemma BatchAt(c: Client, regs: seq<Register>, link: Link, a: nat, answered: bool)
    requires AllWellFormed(regs) && Distinct(regs)
    requires answered || (NeverAnswered(link.device, a) && HasWords(regs, a))
    ensures
      var u, v := c.backoff, Batch(c, regs, link).client.backoff;
      if a in Addresses(regs) && !Suppressed(u, a, link.now)
      then OneOutcome(Expire(u, a, link.now), v, a, link.now, answered)
      else MarkAt(v, a) == MarkAt(u, a)
  {
    hide Kept, SortByAddress, ExpireAll, Distinct, ReadGroups, Addresses, MarkAt, OneOutcome, NeverAnswered;
    hide Suppressed, HasWords, Groups, Expire;
    var u, sorted := c.backoff, SortByAddress(regs);
    var kept := Kept(u, sorted, link.now);
    var o := Outcome(c.(backoff := ExpireAll(u, sorted, link.now)), map[], true);
    GroupsSplit(kept);
    GroupMembers(Groups(kept), kept);
    FirstPass(u, regs, link.now, a);
    ReadGroupsAt(o, Groups(kept), link, a, answered);
    var v := ReadGroups(o, Groups(kept), link).client.backoff;
    if a in Addresses(kept) {
      OutcomeAlike(Expire(u, a, link.now), o.client.backoff, v, v, a, link.now, answered);
    } else {
      SuppressedStays(u, a, link.now);
    }
  }

  lemma SuppressedStays(u: Backoff, a: nat, now: real)
    ensures Suppressed(u, a, now) ==> Expire(u, a, now) == u
  {}

  // ---------- the invariant of every run ----------

  /** The lists read are lists of distinct registers. */
  ghost predicate Regular(run: seq<Event>) {
    forall ev :: ev in run && ev.BatchRead? ==> Distinct(ev.regs)
  }

  ghost predicate HasStrikes(u: Backoff, a: nat) {
    a in u.suppressed ==> a in u.strikes && u.strikes[a] >= STRIKES_THRESHOLD
  }

  lemma BatchKeepsStrikes(c: Client, regs: seq<Register>, link: Link, a: nat)
    requires AllWellFormed(regs) && Distinct(regs) && HasStrikes(c.backoff, a)
    ensures HasStrikes(Batch(c, regs, link).client.backoff, a)
  {
    BatchAt(c, regs, link, a, true);
    hide Batch, Distinct;
    var u, v := c.backoff, Batch(c, regs, link).client.backoff;
    assert a in v.suppressed <==> MarkAt(v, a).since.Some?;
    assert a in v.strikes <==> MarkAt(v, a).strikes.Some?;
    assert a in v.strikes ==> MarkAt(v, a).strikes.value == v.strikes[a];
  }

  /** In every run a suppressed address has its three strikes, although the answer to a group
      clears strikes without looking at the suppressions. */
  lemma {:induction false} SuppressedHasStrikes(run: seq<Event>, a: nat)
    requires Regular(run)
    ensures HasStrikes(Run(run), a)
  {
    hide Distinct, Batch;
    if run != [] {
      var front, ev := run[..|run| - 1], run[|run| - 1];
      assert forall x :: x in front ==> x in run;
      assert ev in run;
      SuppressedHasStrikes(front, a);
      if ev.BatchRead? && AllWellFormed(ev.regs) {
        BatchKeepsStrikes(Client(ev.memo, Run(front)), ev.regs, ev.Link(), a);
      }
    }
  }

  // ---------- the back-off of a register that is never answered ----------

  ghost predicate ClockRuns(run: seq<Event>) {
    forall i, j :: 0 <= i < j < |run| ==> run[i].now <= run[j].now
  }

  /** No read of the register is ever answered with words, and nobody resets the tables. */
  ghost predicate StaysSilent(ev: Event, a: nat) {
    match ev
    case Read(address, _, reply) => address == a ==> !reply.Bytes?
    case BatchRead(_, regs, _, device, _, _, _) => Distinct(regs) && NeverAnswered(device, a) && HasWords(regs, a)
    case _ => false
  }

  ghost predicate KeepsRefusing(run: seq<Event>, a: nat) {
    forall ev :: ev in run ==> StaysSilent(ev, a)
  }

  /** The address got one more strike. */
  predicate Struck(u: Backoff, v: Backoff, a: nat) {
    StrikesOf(v, a, 0) > StrikesOf(u, a, 0)
  }

  /** When the register was struck. */
  function StrikeTimes(run: seq<Event>, a: nat): seq<real> {
    if |run| == 0 then []
    else
      var n := |run| - 1;
      StrikeTimes(run[..n], a) + if Struck(Run(run[..n]), Run(run), a) then [run[n].now] else []
  }

  /** Consecutive strikes from the third on are more than 120 s apart for every strike so far. */
  ghost predicate Spaced(times: seq<real>) {
    forall n :: 3 <= n < |times| ==> times[n] - times[n - 1] > RESET_INTERVAL * n as real
  }

  /** The tables of address `a` at clock `t` reflect its strike times. */
  ghost predicate Tracks(times: seq<real>, u: Backoff, a: nat, t: real) {
    && Spaced(times)
    && (a in u.strikes <==> times != [])
    && (a in u.strikes ==> u.strikes[a] == |times|)
    && (a in u.suppressed ==> |times| >= 3 && u.suppressed[a] == times[|times| - 1])
    && (|times| >= 3 && a !in u.suppressed ==> t - times[|times| - 1] > RESET_INTERVAL * |times| as real)
  }

  lemma ExpireTracks(times: seq<real>, u: Backoff, a: nat, b: nat, t: real, now: real)
    requires Tracks(times, u, a, t) && t <= now
    ensures Tracks(times, Expire(u, b, now), a, now)
  {}

  lemma StrikeTracks(times: seq<real>, u: Backoff, a: nat, now: real)
    requires Tracks(times, u, a, now) && a !in u.suppressed
    ensures Tracks(times + [now], Strike(u, a, now), a, now)
  {
    var longer := times + [now];
    forall n | 3 <= n < |longer| ensures longer[n] - longer[n - 1] > RESET_INTERVAL * n as real {
      if n < |times| {
        assert times[n] - times[n - 1] > RESET_INTERVAL * n as real;
      }
    }
  }

  lemma AlikeTracks(times: seq<real>, u: Backoff, v: Backoff, a: nat, t: real)
    requires Tracks(times, u, a, t) && MarkAt(u, a) == MarkAt(v, a)
    ensures Tracks(times, v, a, t)
  {
    assert a in u.strikes <==> MarkAt(u, a).strikes.Some?;
    assert a in v.strikes <==> MarkAt(v, a).strikes.Some?;
    StillUnsuppressed(u, v, a);
    assert a in u.suppressed ==> MarkAt(u, a).since.value == u.suppressed[a];
    assert a in v.suppressed ==> MarkAt(v, a).since.value == v.suppressed[a];
    assert a in u.strikes ==> MarkAt(u, a).strikes.value == u.strikes[a];
    assert a in v.strikes ==> MarkAt(v, a).strikes.value == v.strikes[a];
    hide Spaced;
  }

  lemma AlikeStrikes(u: Backoff, v: Backoff, a: nat)
    requires MarkAt(u, a) == MarkAt(v, a)
    ensures StrikesOf(u, a, 0) == StrikesOf(v, a, 0)
  {
    assert a in u.strikes <==> MarkAt(u, a).strikes.Some?;
    assert a in v.strikes <==> MarkAt(v, a).strikes.Some?;
  }

  /** Left or struck once, the address keeps track of its strike times. */
  lemma OutcomeTracks(times: seq<real>, u: Backoff, v: Backoff, a: nat, t: real, now: real)
    requires Tracks(times, u, a, t) && t <= now && !Suppressed(u, a, now)
    requires OneOutcome(Expire(u, a, now), v, a, now, false)
    ensures Tracks(if Struck(u, v, a) then times + [now] else times, v, a, now)
  {
    var w := Expire(u, a, now);
    ExpireTracks(times, u, a, a, t, now);
    assert StrikesOf(w, a, 0) == StrikesOf(u, a, 0) && a !in w.suppressed;
    hide Tracks;
    if MarkAt(v, a) == MarkAt(w, a) {
      AlikeStrikes(v, w, a);
      AlikeTracks(times, w, v, a, now);
    } else {
      AlikeStrikes(v, Strike(w, a, now), a);
      StrikeTracks(times, w, a, now);
      AlikeTracks(times + [now], Strike(w, a, now), v, a, now);
    }
  }

  lemma UntouchedTracks(times: seq<real>, u: Backoff, v: Backoff, a: nat, t: real, now: real)
    requires Tracks(times, u, a, t) && t <= now && MarkAt(u, a) == MarkAt(v, a)
    ensures Tracks(if Struck(u, v, a) then times + [now] else times, v, a, now)
  {
    AlikeStrikes(u, v, a);
    AlikeTracks(times, u, v, a, t);
    hide Spaced;
  }

  lemma StepTracks(times: seq<real>, u: Backoff, a: nat, t: real, ev: Event)
    requires Tracks(times, u, a, t) && t <= ev.now && StaysSilent(ev, a)
    ensures Tracks(if Struck(u, Step(u, ev), a) then times + [ev.now] else times, Step(u, ev), a, ev.now)
  {
    hide Tracks, NeverAnswered, Distinct, Batch;
    var v := Step(u, ev);
    if ev.BatchRead? && AllWellFormed(ev.regs) {
      BatchAt(Client(ev.memo, u), ev.regs, ev.Link(), a, false);
      if a in Addresses(ev.regs) && !Suppressed(u, a, ev.now) {
        OutcomeTracks(times, u, v, a, t, ev.now);
      } else {
        UntouchedTracks(times, u, v, a, t, ev.now);
      }
    } else if ev.Read? && ev.address == a && !Suppressed(u, a, ev.now) {
      assert OneOutcome(Expire(u, a, ev.now), v, a, ev.now, false);
      OutcomeTracks(times, u, v, a, t, ev.now);
    } else {
      UntouchedTracks(times, u, v, a, t, ev.now);
    }
  }

  lemma {:induction false} StrikesAreSpaced(run: seq<Event>, a: nat)
    requires ClockRuns(run) && KeepsRefusing(run, a)
    ensures Tracks(StrikeTimes(run, a), Run(run), a, if run == [] then 0.0 else run[|run| - 1].now)
  {
    hide Step, StaysSilent, Tracks;
    if run == [] {
      NothingTracked(a);
    } else {
      var n := |run| - 1;
      var front, ev := run[..n], run[n];
      assert forall x :: x in front ==> x in run;
      assert ev in run && forall i :: 0 <= i < n ==> front[i] == run[i];
      StrikesAreSpaced(front, a);
      var t := if n == 0 then ev.now else front[n - 1].now;
      if n == 0 {
        NothingTrackedAt(a, t);
      }
      StepTracks(StrikeTimes(front, a), Run(front), a, t, ev);
      assert StrikeTimes(run, a)
          == if Struck(Run(front), Run(run), a) then StrikeTimes(front, a) + [ev.now] else StrikeTimes(front, a);
    }
  }

  lemma NothingTracked(a: nat)
    ensures Tracks(StrikeTimes([], a), Run([]), a, 0.0)
  {}

  lemma NothingTrackedAt(a: nat, t: real)
    ensures Tracks(StrikeTimes([], a), Run([]), a, t)
  {}

  lemma {:induction false} SpacingAddsUp(times: seq<real>, n: nat)
    requires Spaced(times) && 3 <= n <= |times|
    ensures times[n - 1] - times[2] >= (60 * n * (n - 1) - 360) as real
  {
    if n > 3 {
      SpacingAddsUp(times, n - 1);
      assert times[n - 1] - times[n - 2] > 120.0 * (n - 1) as real;
      assert 60 * n * (n - 1) == 60 * (n - 1) * (n - 2) + 120 * (n - 1);
    }
  }

  /** The back-off is quadratic: whatever else is polled in between, on its own or in batches, the
      n-th strike of a register that is never answered comes at least 60 n (n - 1) - 360 s after
      its third. */
  lemma BackoffIsQuadratic(run: seq<Event>, a: nat, n: nat)
    requires ClockRuns(run) && KeepsRefusing(run, a)
    requires 3 <= n <= |StrikeTimes(run, a)|
    ensures StrikeTimes(run, a)[n - 1] - StrikeTimes(run, a)[2] >= (60 * n * (n - 1) - 360) as real
  {
    StrikesAreSpaced(run, a);
    SpacingAddsUp(StrikeTimes(run, a), n);
  }

  /** And it ends: such a register is suppressed exactly from its third strike on, each time until
      120 s for every strike so far have passed since the last. */
  lemma SuppressedExactly(run: seq<Event>, a: nat, now: real)
    requires ClockRuns(run) && KeepsRefusing(run, a) && (run != [] ==> run[|run| - 1].now <= now)
    ensures
      var times := StrikeTimes(run, a);
      Suppressed(Run(run), a, now) <==> |times| >= 3 && now - times[|times| - 1] <= 120.0 * |times| as real
  {
    StrikesAreSpaced(run, a);
    hide Run, StrikeTimes, ClockRuns, KeepsRefusing, Spaced;
  }

  // ---------- what counts as a strike ----------

  /** The batches of the run do not name the address. */
  ghost predicate ReadSingly(run: seq<Event>, a: nat) {
    forall ev :: ev in run && ev.BatchRead? ==> Distinct(ev.regs) && a !in Addresses(ev.regs)
  }

  /** The ILLEGAL_DATA_ADDRESS answers for the address since words came for it, or since the tables
      were reset; or on top of the count restored since then. */
  function Refusals(run: seq<Event>, a: nat): nat {
    if |run| == 0 then 0
    else
      var ev, front := run[|run| - 1], run[..|run| - 1];
      match ev
      case Read(address, now, reply) =>
        if address != a || Suppressed(Run(front), a, now) then Refusals(front, a)
        else if reply.Bytes? then 0
        else if reply == IllegalAddress then Refusals(front, a) + 1
        else Refusals(front, a)
      case BatchRead(_, _, _, _, _, _, _) => Refusals(front, a)
      case Reset(_) => 0
      case Import(strikes, _) => if a in strikes then strikes[a] else 0
  }

  lemma {:induction false} StrikesAreRefusals(run: seq<Event>, a: nat)
    requires ReadSingly(run, a)
    ensures StrikesOf(Run(run), a, 0) == Refusals(run, a)
  {
    hide Distinct, Batch, Suppressed;
    if run != [] {
      var front, ev := run[..|run| - 1], run[|run| - 1];
      assert forall x :: x in front ==> x in run;
      assert ev in run;
      StrikesAreRefusals(front, a);
      if ev.BatchRead? && AllWellFormed(ev.regs) {
        BatchAt(Client(ev.memo, Run(front)), ev.regs, ev.Link(), a, true);
        AlikeStrikes(Run(run), Run(front), a);
      }
    }
  }
}
