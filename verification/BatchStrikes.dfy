/** Which strikes survive a batch (modbus_client.py): a register whose value is refused loses them
    when it is read on its own, and keeps them when it is cut out of a group's answer. */
module BatchStrikes {
  import opened Registers
  import opened RegisterCodec
  import opened QualityFilter
  import opened BatchReader
  import opened ReadOrder

  /** The guards reject the register's own words, and no remembered value may stand in. */
  predicate Refused(m: Memo, reg: Register, mem: Memory, link: Link)
    requires WellFormed(reg)
  {
    && !Passes(reg, Decode(RegisterBytes(mem, reg), reg, link.e))
    && !(reg.address in m.lastGood && link.policy == KeepLast)
  }

  /** The group is fetched by one request, and the request is answered. */
  predicate FetchedTogether(group: seq<Register>, link: Link) {
    |group| >= 2 && RawRead(link.device, group[0].address, TotalCount(group)).Bytes?
  }

  /** The addresses of `group` whose strikes an answer to the whole group clears. */
  function Admitted(m: Memo, group: seq<Register>, mem: Memory, link: Link): (r: set<nat>)
    requires AllWellFormed(group)
    ensures forall a :: a in r <==> exists reg :: reg in group && reg.address == a && !Refused(m, reg, mem, link)
  {
    if group == [] then {}
    else (if Refused(m, group[0], mem, link) then {} else {group[0].address}) + Admitted(m, group[1..], mem, link)
  }

  /** The addresses of `group` whose strikes reading the group clears. */
  function GroupClears(m: Memo, group: seq<Register>, mem: Memory, link: Link): set<nat>
    requires AllWellFormed(group)
  {
    if FetchedTogether(group, link) then Admitted(m, group, mem, link) else Addresses(group)
  }

  function BatchClears(m: Memo, groups: seq<seq<Register>>, mem: Memory, link: Link): (r: set<nat>)
    requires ReadableGroups(groups)
    ensures forall a :: a in r <==> exists g :: g in groups && a in GroupClears(m, g, mem, link)
  {
    if groups == [] then {}
    else
      assert forall g :: g in groups <==> g == groups[0] || g in groups[1..];
      GroupClears(m, groups[0], mem, link) + BatchClears(m, groups[1..], mem, link)
  }

  /** The two memories hold the same about every one of the registers. */
  ghost predicate AgreeOn(m: Memo, n: Memo, regs: seq<Register>) {
    forall reg :: reg in regs ==> At(m, reg.address) == At(n, reg.address)
  }

  /** A value is let through exactly when it is not refused. */
  lemma RefusedIsNone(m: Memo, n: Memo, reg: Register, mem: Memory, link: Link)
    requires WellFormed(reg) && At(m, reg.address) == At(n, reg.address)
    ensures Accept(n, reg, Decode(RegisterBytes(mem, reg), reg, link.e), link.gen, link.policy).1.None?
        <==> Refused(m, reg, mem, link)
  {
    hide Passes, Decode;
    assert reg.address in m.lastGood <==> At(m, reg.address).lastGood.Some?;
    assert reg.address in n.lastGood <==> At(n, reg.address).lastGood.Some?;
  }

  lemma SliceStrikes(m: Memo, o: Outcome, reg: Register, mem: Memory, link: Link)
    requires WellFormed(reg) && At(m, reg.address) == At(o.client.memo, reg.address)
    ensures AcceptSlice(o, reg, RegisterBytes(mem, reg), link).client.backoff.strikes
         == o.client.backoff.strikes - (if Refused(m, reg, mem, link) then {} else {reg.address})
    ensures AcceptSlice(o, reg, RegisterBytes(mem, reg), link).client.memo
         == AcceptStep(ReadingOf(o), reg, mem, link).memo
  {
    RefusedIsNone(m, o.client.memo, reg, mem, link);
    hide Refused, Accept, Decode;
  }

  /** Accepting the first of distinct registers changes nothing about the others. */
  lemma FirstLeavesOthers(m: Memo, x: Reading, regs: seq<Register>, mem: Memory, link: Link)
    requires AllWellFormed(regs) && Distinct(regs) && regs != [] && AgreeOn(m, x.memo, regs)
    ensures WellFormed(regs[0]) && At(m, regs[0].address) == At(x.memo, regs[0].address)
    ensures Distinct(regs[1..]) && AgreeOn(m, AcceptStep(x, regs[0], mem, link).memo, regs[1..])
  {
    hide AcceptStep, At;
    var rest := regs[1..];
    assert regs[0] in regs;
    StepIsLocal(x, x, regs[0], mem, link);
    forall other | other in rest
      ensures At(m, other.address) == At(AcceptStep(x, regs[0], mem, link).memo, other.address)
    {
      var k :| 0 <= k < |rest| && rest[k] == other;
      assert regs[k + 1] == other && other.address != regs[0].address;
    }
  }

  lemma {:induction false} SlicesStrikes(m: Memo, o: Outcome, group: seq<Register>, raw: seq<byte>,
                                         link: Link, mem: Memory)
    requires AllWellFormed(group) && Distinct(group) && AgreeOn(m, o.client.memo, group)
    requires group != [] ==> Contiguous(group) && raw == ReadWords(mem, group[0].address, TotalCount(group))
    requires |raw| == 2 * TotalCount(group)
    ensures AcceptSlices(o, group, raw, link).client.backoff.strikes
         == o.client.backoff.strikes - Admitted(m, group, mem, link)
    decreases |group|
  {
    hide AcceptSlice, Refused, RegisterBytes, ReadWords, AcceptStep, At, AgreeOn, Distinct, Contiguous;
    if group != [] {
      var reg, rest := group[0], group[1..];
      SliceOff(mem, group, raw);
      if rest != [] {
        ContiguousTail(group);
      }
      FirstLeavesOthers(m, ReadingOf(o), group, mem, link);
      SliceStrikes(m, o, reg, mem, link);
      SlicesStrikes(m, AcceptSlice(o, reg, RegisterBytes(mem, reg), link), rest, raw[2 * reg.count..], link, mem);
    }
  }

  lemma GroupStrikes(m: Memo, o: Outcome, group: seq<Register>, link: Link, mem: Memory)
    requires AllWellFormed(group) && Contiguous(group) && Distinct(group) && o.alive
    requires Serves(link, mem, group) && Unsuppressed(o.client.backoff, group) && AgreeOn(m, o.client.memo, group)
    ensures ReadGroup(o, group, link).client.backoff.strikes
         == o.client.backoff.strikes - GroupClears(m, group, mem, link)
  {
    if FetchedTogether(group, link) {
      SlicesStrikes(m, o, group, RawRead(link.device, group[0].address, TotalCount(group)).raw, link, mem);
    } else {
      OneByOneAccepts(o, group, link, mem);
      UnsuppressedKept(o.client.backoff, group, link.now);
    }
  }

  lemma AgreeOnParts(m: Memo, n: Memo, front: seq<Register>, back: seq<Register>)
    requires AgreeOn(m, n, front + back)
    ensures AgreeOn(m, n, front) && AgreeOn(m, n, back)
  {
    hide At;
    assert forall reg :: reg in front || reg in back ==> reg in front + back;
  }

  /** Accepting the registers of one group changes nothing about the others. */
  lemma GroupLeavesOthers(m: Memo, x: Reading, group: seq<Register>, others: seq<Register>, mem: Memory, link: Link)
    requires AllWellFormed(group) && Distinct(group + others) && AgreeOn(m, x.memo, group + others)
    ensures Distinct(group) && AgreeOn(m, x.memo, group)
    ensures Distinct(others) && AgreeOn(m, AcceptEach(x, group, mem, link).memo, others)
  {
    hide At, AcceptEach, Distinct;
    DistinctParts(group, others);
    AgreeOnParts(m, x.memo, group, others);
    forall reg | reg in others ensures At(m, reg.address) == At(AcceptEach(x, group, mem, link).memo, reg.address) {
      Elsewhere(x, group, reg.address, "", mem, link);
    }
  }

  lemma {:induction false} GroupsStrikes(m: Memo, o: Outcome, groups: seq<seq<Register>>, regs: seq<Register>,
                                         link: Link, mem: Memory)
    requires ReadableGroups(groups) && o.alive && forall g :: g in groups ==> Contiguous(g)
    requires Serves(link, mem, regs) && Unsuppressed(o.client.backoff, regs)
    requires forall g, reg :: g in groups && reg in g ==> reg in regs
    requires Distinct(Flatten(groups)) && AgreeOn(m, o.client.memo, Flatten(groups))
    ensures ReadGroups(o, groups, link).client.backoff.strikes
         == o.client.backoff.strikes - BatchClears(m, groups, mem, link)
    decreases |groups|
  {
    hide AgreeOn, Distinct, Contiguous, ReadGroup, GroupClears, AcceptEach, Flatten;
    if groups != [] {
      var g, rest := groups[0], groups[1..];
      assert g in groups && groups == [g] + rest;
      FlattenCons(g, rest);
      ServesSubset(link, mem, o.client.backoff, regs, g);
      GroupLeavesOthers(m, ReadingOf(o), g, Flatten(rest), mem, link);
      GroupAccepts(o, g, link, mem);
      GroupStrikes(m, o, g, link, mem);
      assert forall h :: h in rest ==> h in groups;
      GroupsStrikes(m, ReadGroup(o, g, link), rest, regs, link, mem);
    }
  }

  // ---------- the exact difference ----------

  /** The groups a batch of these registers forms. */
  function BatchGroups(c: Client, regs: seq<Register>, now: real): (groups: seq<seq<Register>>)
    requires AllWellFormed(regs)
    ensures ReadableGroups(groups)
  {
    var kept := Kept(c.backoff, SortByAddress(regs), now);
    GroupsSplit(kept);
    GroupMembers(Groups(kept), kept);
    Groups(kept)
  }

  /** The register at `a` was cut out of the answer to a whole group, and its value was refused. */
  ghost predicate RefusedInGroup(c: Client, regs: seq<Register>, link: Link, mem: Memory, a: nat)
    requires AllWellFormed(regs)
  {
    exists g, reg :: g in BatchGroups(c, regs, link.now) && reg in g && reg.address == a
      && FetchedTogether(g, link) && Refused(c.memo, reg, mem, link)
  }

  /** Among distinct registers an address belongs to one group only. */
  lemma {:induction false} OneGroup(groups: seq<seq<Register>>, g: seq<Register>, h: seq<Register>, a: nat)
    requires Distinct(Flatten(groups)) && g in groups && h in groups && a in Addresses(g) && a in Addresses(h)
    ensures g == h
    decreases |groups|
  {
    var rest := groups[1..];
    assert groups == [groups[0]] + rest;
    FlattenCons(groups[0], rest);
    DistinctParts(groups[0], Flatten(rest));
    hide Distinct, Flatten;
    if g in rest {
      InFlatten(rest, g, a);
    }
    if h in rest {
      InFlatten(rest, h, a);
    }
    if g in rest && h in rest {
      OneGroup(rest, g, h, a);
    }
  }

  lemma {:induction false} InFlatten(groups: seq<seq<Register>>, g: seq<Register>, a: nat)
    requires g in groups && a in Addresses(g)
    ensures a in Addresses(Flatten(groups))
    decreases |groups|
  {
    var reg :| reg in g && reg.address == a;
    var m := |groups| - 1;
    if g in groups[..m] {
      InFlatten(groups[..m], g, a);
      assert a in Addresses(Flatten(groups[..m]));
      var other :| other in Flatten(groups[..m]) && other.address == a;
      assert other in Flatten(groups);
    } else {
      assert g == groups[m] && reg in Flatten(groups);
    }
  }

  lemma {:induction false} InSomeGroup(groups: seq<seq<Register>>, a: nat)
    requires a in Addresses(Flatten(groups))
    ensures exists g :: g in groups && a in Addresses(g)
    decreases |groups|
  {
    var m := |groups| - 1;
    var reg :| reg in Flatten(groups) && reg.address == a;
    if reg in groups[m] {
      assert groups[m] in groups && a in Addresses(groups[m]);
    } else {
      InSomeGroup(groups[..m], a);
      var g :| g in groups[..m] && a in Addresses(g);
      assert g in groups;
    }
  }

  /** What a batch leaves of the strikes. */
  lemma BatchStrikesAre(c: Client, regs: seq<Register>, link: Link, mem: Memory)
    requires AllWellFormed(regs) && Distinct(regs) && Serves(link, mem, regs)
    ensures Batch(c, regs, link).client.backoff.strikes
         == c.backoff.strikes - BatchClears(c.memo, BatchGroups(c, regs, link.now), mem, link)
    ensures
      var kept, groups := Kept(c.backoff, SortByAddress(regs), link.now), BatchGroups(c, regs, link.now);
      && Distinct(kept) && Flatten(groups) == kept
      && Addresses(kept) == Addresses(Kept(c.backoff, regs, link.now))
  {
    var sorted := SortByAddress(regs);
    var kept := Kept(c.backoff, sorted, link.now);
    var groups := Groups(kept);
    var u := ExpireAll(c.backoff, sorted, link.now);
    var o := Outcome(c.(backoff := u), map[], true);
    GroupsSplit(kept);
    GroupMembers(groups, kept);
    KeptUnsuppressed(c.backoff, sorted, link.now);
    ExpireAllStatus(c.backoff, c.backoff, sorted, link.now);
    SortedDistinct(regs);
    KeptDistinct(c.backoff, sorted, link.now);
    KeptDistinct(c.backoff, regs, link.now);
    hide Distinct, AgreeOn, ReadGroups, ExpireAll, Kept, Groups, BatchClears;
    AgreesWithItself(c.memo, kept);
    ServesSubset(link, mem, Backoff(map[], map[]), regs, kept);
    GroupsStrikes(c.memo, o, groups, kept, link, mem);
  }

  lemma AgreesWithItself(m: Memo, regs: seq<Register>)
    ensures AgreeOn(m, m, regs)
  {}

  lemma {:induction false} GroupDistinct(groups: seq<seq<Register>>, g: seq<Register>)
    requires Distinct(Flatten(groups)) && g in groups
    ensures Distinct(g)
    decreases |groups|
  {
    var m := |groups| - 1;
    DistinctParts(Flatten(groups[..m]), groups[m]);
    if g != groups[m] {
      GroupDistinct(groups[..m], g);
    }
  }

  /** Whether reading the group clears the strikes of one of its registers. */
  lemma ClearsOne(m: Memo, group: seq<Register>, reg: Register, mem: Memory, link: Link)
    requires AllWellFormed(group) && Distinct(group) && reg in group
    ensures reg.address in GroupClears(m, group, mem, link)
        <==> !(FetchedTogether(group, link) && Refused(m, reg, mem, link))
  {
    hide FetchedTogether, Refused;
    forall other | other in group && other.address == reg.address ensures other == reg {
      var i :| 0 <= i < |group| && group[i] == reg;
      var j :| 0 <= j < |group| && group[j] == other;
    }
  }

  lemma ClearsOnlyOwn(m: Memo, group: seq<Register>, mem: Memory, link: Link)
    requires AllWellFormed(group)
    ensures GroupClears(m, group, mem, link) <= Addresses(group)
  {
    hide FetchedTogether, Refused;
  }

  /** The strikes of a kept address survive the batch exactly when its register is refused out of
      the answer to its group. */
  lemma KeptStrike(c: Client, regs: seq<Register>, link: Link, mem: Memory, a: nat)
    requires AllWellFormed(regs) && Distinct(Kept(c.backoff, SortByAddress(regs), link.now))
    requires Flatten(BatchGroups(c, regs, link.now)) == Kept(c.backoff, SortByAddress(regs), link.now)
    ensures RefusedInGroup(c, regs, link, mem, a) <==>
      && a in Addresses(Kept(c.backoff, SortByAddress(regs), link.now))
      && a !in BatchClears(c.memo, BatchGroups(c, regs, link.now), mem, link)
  {
    var kept, groups := Kept(c.backoff, SortByAddress(regs), link.now), BatchGroups(c, regs, link.now);
    hide Distinct, Kept, BatchGroups, Refused, FetchedTogether, Flatten, GroupClears;
    if a in Addresses(kept) {
      InSomeGroup(groups, a);
      var g :| g in groups && a in Addresses(g);
      var reg :| reg in g && reg.address == a;
      GroupDistinct(groups, g);
      ClearsOne(c.memo, g, reg, mem, link);
      forall h, other | h in groups && other in h && other.address == a ensures h == g && other == reg {
        OneGroup(groups, g, h, a);
        OneRegister(g, reg, other);
      }
      forall h | h in groups && a in GroupClears(c.memo, h, mem, link) ensures h == g {
        ClearsOnlyOwn(c.memo, h, mem, link);
        OneGroup(groups, g, h, a);
      }
    } else {
      forall g, reg | g in groups && reg in g ensures reg.address != a {
        if reg.address == a {
          InFlatten(groups, g, a);
        }
      }
    }
  }

  lemma OneRegister(regs: seq<Register>, x: Register, y: Register)
    requires Distinct(regs) && x in regs && y in regs && x.address == y.address
    ensures x == y
  {
    var i :| 0 <= i < |regs| && regs[i] == x;
    var j :| 0 <= j < |regs| && regs[j] == y;
  }

  /** How the strikes differ: read one by one in the caller's order, every register that is not
      suppressed loses its strikes. A batch of the same registers keeps the count of exactly those
      whose value, cut out of the answer to a group of two or more, the guards refuse; any other
      strike is cleared or kept alike. */
  lemma BatchKeepsRefusedStrikes(c: Client, regs: seq<Register>, link: Link, mem: Memory)
    requires AllWellFormed(regs) && Distinct(regs) && Serves(link, mem, regs)
    ensures
      var b := Batch(c, regs, link).client.backoff.strikes;
      var r := OneByOne(Outcome(c, map[], true), regs, link).client.backoff.strikes;
      && r == c.backoff.strikes - Addresses(Kept(c.backoff, regs, link.now))
      && r.Keys <= b.Keys
      && (forall a :: a in b ==> a in c.backoff.strikes && b[a] == c.backoff.strikes[a])
      && (forall a :: a in b && a !in r <==> a in c.backoff.strikes && RefusedInGroup(c, regs, link, mem, a))
  {
    BatchStrikesAre(c, regs, link, mem);
    OneByOneAccepts(Outcome(c, map[], true), regs, link, mem);
    hide Distinct, Kept, Batch, OneByOne, RefusedInGroup, BatchClears, BatchGroups, Addresses;
    forall a
      ensures RefusedInGroup(c, regs, link, mem, a) <==>
        && a in Addresses(Kept(c.backoff, regs, link.now))
        && a !in BatchClears(c.memo, BatchGroups(c, regs, link.now), mem, link)
    {
      KeptStrike(c, regs, link, mem, a);
    }
    forall a | a in BatchClears(c.memo, BatchGroups(c, regs, link.now), mem, link)
      ensures a in Addresses(Kept(c.backoff, regs, link.now))
    {
      ClearedIsKept(c, regs, link, mem, a);
    }
  }

  lemma ClearedIsKept(c: Client, regs: seq<Register>, link: Link, mem: Memory, a: nat)
    requires AllWellFormed(regs)
    requires Flatten(BatchGroups(c, regs, link.now)) == Kept(c.backoff, SortByAddress(regs), link.now)
    requires a in BatchClears(c.memo, BatchGroups(c, regs, link.now), mem, link)
    ensures a in Addresses(Kept(c.backoff, SortByAddress(regs), link.now))
  {
    var groups := BatchGroups(c, regs, link.now);
    hide BatchGroups, Kept, Flatten, GroupClears;
    var g :| g in groups && a in GroupClears(c.memo, g, mem, link);
    ClearsOnlyOwn(c.memo, g, mem, link);
    InFlatten(groups, g, a);
  }

  // ---------- a read where they differ ----------

  const DISCHARGE_LIMIT := Register(1040, "bat_max_discharge_limit", FLOAT32, 2, RW, BATTERY_MGMT, false)

  /** The charge limit reads as NaN in either byte order, the discharge limit as zero. */
  function LimitWords(a: nat): word { if a < 1040 then 0x7FC0 else 0 }

  const LIMIT_LINK := Link((a: nat, n: nat) => Bytes(ReadWords(LimitWords, a, n)), 1, 0.0, Big, KeepLast)
  const STRUCK_LIMIT := Client(EMPTY_MEMO, Backoff(map[1038 := 1], map[]))

  lemma PairGroups(a: Register, b: Register)
    requires Adjacent(a, b)
    ensures SortByAddress([a, b]) == [a, b] && Groups([a, b]) == [[a, b]]
  {
    assert [a, b][..1] == [a] && [a][..0] == [];
    assert SortByAddress([a]) == [a] && Groups([a]) == [[a]];
    assert [a] + [b] == [a, b];
    assert [[a]][..0] == [];
  }

  lemma LimitsServed()
    ensures Serves(LIMIT_LINK, LimitWords, [CHARGE_LIMIT, DISCHARGE_LIMIT])
    ensures FetchedTogether([CHARGE_LIMIT, DISCHARGE_LIMIT], LIMIT_LINK)
  {
    hide ReadWords;
  }

  lemma LimitRefused()
    ensures Refused(EMPTY_MEMO, CHARGE_LIMIT, LimitWords, LIMIT_LINK)
  {
    var raw := RegisterBytes(LimitWords, CHARGE_LIMIT);
    assert WordOf(raw, 0) == PackWord(0x7FC0) && WordOf(raw, 1) == PackWord(0x7FC0);
    var v := Decode(raw, CHARGE_LIMIT, Big);
    assert v == FloatV(Float32(127, 192, 127, 192));
    assert IsNumber(v) && !IsFinite(v);
    hide RegisterBytes, Decode, IsNumber, IsFinite, IsSentinel, OutOfRange;
  }

  lemma LimitsKept()
    ensures var regs := [CHARGE_LIMIT, DISCHARGE_LIMIT]; Kept(STRUCK_LIMIT.backoff, regs, 0.0) == regs
  {
    var u := STRUCK_LIMIT.backoff;
    assert Kept(u, [], 0.0) == [] && [DISCHARGE_LIMIT][1..] == [];
    assert Kept(u, [DISCHARGE_LIMIT], 0.0) == [DISCHARGE_LIMIT];
    assert [CHARGE_LIMIT, DISCHARGE_LIMIT][1..] == [DISCHARGE_LIMIT];
  }

  /** With one strike against the charge limit and its value NaN, the batch of the two adjacent
      limits leaves the strike, and reading them one by one clears it. */
  lemma StrikeSurvivesOnlyTheBatch()
    ensures
      var regs := [CHARGE_LIMIT, DISCHARGE_LIMIT];
      && Serves(LIMIT_LINK, LimitWords, regs) && Distinct(regs)
      && 1038 in Batch(STRUCK_LIMIT, regs, LIMIT_LINK).client.backoff.strikes
      && 1038 !in OneByOne(Outcome(STRUCK_LIMIT, map[], true), regs, LIMIT_LINK).client.backoff.strikes
  {
    hide Refused, FetchedTogether, Kept, SortByAddress, Groups, Batch, OneByOne, Serves, LimitWords;
    var regs := [CHARGE_LIMIT, DISCHARGE_LIMIT];
    LimitsServed();
    LimitRefused();
    LimitsKept();
    PairGroups(CHARGE_LIMIT, DISCHARGE_LIMIT);
    assert BatchGroups(STRUCK_LIMIT, regs, 0.0) == [regs];
    assert regs in [regs] && CHARGE_LIMIT in regs;
    assert RefusedInGroup(STRUCK_LIMIT, regs, LIMIT_LINK, LimitWords, 1038);
    BatchKeepsRefusedStrikes(STRUCK_LIMIT, regs, LIMIT_LINK, LimitWords);
  }
}
