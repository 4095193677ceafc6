/** What a batch read returns and remembers (modbus_client.py), register by register and for any
    device, however its single and group requests end. */
module BatchValues {
  import opened Registers
  import opened RegisterCodec
  import opened QualityFilter
  import opened BatchReader
  import opened ReadOrder
  import opened BatchStrikes

  /** An answer counts only with the right number of bytes. */
  function Answered(device: Device, address: nat, count: nat): Option<seq<byte>> {
    match device(address, count)
    case Bytes(raw) => if |raw| == 2 * count then Some(raw) else None
    case _ => None
  }

  lemma {:induction false} TotalIsSpan(group: seq<Register>)
    requires Contiguous(group)
    ensures group[0].address + TotalCount(group) == group[|group| - 1].address + group[|group| - 1].count
  {
    var rest := group[1..];
    if rest != [] {
      assert Adjacent(group[0], group[1]);
      assert forall i :: 1 <= i < |rest| ==> rest[i - 1] == group[i] && rest[i] == group[i + 1];
      TotalIsSpan(rest);
    }
  }

  /** The number of words from the first register of a group to the end of the last. */
  function Span(group: seq<Register>): (n: nat)
    requires Contiguous(group)
    ensures n == TotalCount(group)
  {
    TotalIsSpan(group);
    group[|group| - 1].address + group[|group| - 1].count - group[0].address
  }

  /** The words a register gets as a member of a group: cut out of the answer to the whole group,
      or, when that is not answered or the register is alone, from a request of its own. */
  function OwnWords(device: Device, group: seq<Register>, reg: Register): (r: Option<seq<byte>>)
    requires Contiguous(group) && reg in group
    ensures r.Some? ==> |r.value| == 2 * reg.count
  {
    GroupCovers(group, reg);
    var whole := Answered(device, group[0].address, Span(group));
    var k := 2 * (reg.address - group[0].address);
    if |group| >= 2 && whole.Some? then Some(whole.value[k..k + 2 * reg.count])
    else Answered(device, reg.address, reg.count)
  }

  /** What is returned for a register with these words: its decoded value if the guards let it
      through, else, keeping last values, the last good one; nothing without words. */
  function Returned(cell: Cell, reg: Register, words: Option<seq<byte>>, link: Link): Option<Value>
    requires words.Some? ==> |words.value| >= 2 * WordsNeeded(reg.dtype)
  {
    if words.None? then None
    else
      var v := Decode(words.value, reg, link.e);
      if Passes(reg, v) then Some(v) else if link.policy == KeepLast then cell.lastGood else None
  }

  /** What is remembered for it: a value the guards let through, with the connection; a mark when
      the last good one stood in. */
  function Remembered(cell: Cell, reg: Register, words: Option<seq<byte>>, link: Link): Cell
    requires words.Some? ==> |words.value| >= 2 * WordsNeeded(reg.dtype)
  {
    if words.None? then cell
    else
      var v := Decode(words.value, reg, link.e);
      if Passes(reg, v) then Cell(Some(v), Some(link.gen), false)
      else cell.(retained := link.policy == KeepLast && cell.lastGood.Some?)
  }

  // ---------- what is kept for one register ----------

  /** What the client and the result hold for one register. */
  datatype Spot = Spot(cell: Cell, value: Option<Value>, suppressed: bool)

  function SpotOf(o: Outcome, reg: Register): Spot {
    Spot(At(o.client.memo, reg.address), ValueAt(o.values, reg.name), reg.address in o.client.backoff.suppressed)
  }

  /** The register is about to be read. */
  predicate Due(s: Spot) { s.value.None? && !s.suppressed }

  /** The register has been read with these words. */
  predicate ReadWith(s: Spot, t: Spot, reg: Register, words: Option<seq<byte>>, link: Link)
    requires words.Some? ==> |words.value| >= 2 * WordsNeeded(reg.dtype)
  {
    t.cell == Remembered(s.cell, reg, words, link) && t.value == Returned(s.cell, reg, words, link)
  }

  predicate Apartly(x: Register, y: Register) { x.address != y.address && x.name != y.name }

  lemma AcceptIs(m: Memo, reg: Register, words: seq<byte>, link: Link)
    requires |words| >= 2 * WordsNeeded(reg.dtype)
    ensures
      var (n, v) := Accept(m, reg, Decode(words, reg, link.e), link.gen, link.policy);
      && v == Returned(At(m, reg.address), reg, Some(words), link)
      && At(n, reg.address) == Remembered(At(m, reg.address), reg, Some(words), link)
  {
    hide Passes, Decode;
    assert reg.address in m.lastGood <==> At(m, reg.address).lastGood.Some?;
  }

  lemma StepElsewhere(o: Outcome, other: Register, reg: Register, link: Link)
    requires WellFormed(other) && Apartly(other, reg)
    ensures SpotOf(ReadStep(o, other, link), reg) == SpotOf(o, reg)
  {
    var words := RawRead(link.device, other.address, other.count);
    if words.Bytes? {
      FilterIsLocal(o.client.memo, o.client.memo, other, Decode(words.raw, other, link.e), link);
    }
    hide Accept, Decode;
  }

  lemma StepHere(o: Outcome, reg: Register, link: Link)
    requires WellFormed(reg) && Due(SpotOf(o, reg)) && o.alive
    ensures ReadWith(SpotOf(o, reg), SpotOf(ReadStep(o, reg, link), reg), reg,
                     Answered(link.device, reg.address, reg.count), link)
  {
    var words := RawRead(link.device, reg.address, reg.count);
    if words.Bytes? {
      AcceptIs(o.client.memo, reg, words.raw, link);
    }
    hide Accept, Decode, At, Passes;
  }

  lemma SliceElsewhere(o: Outcome, other: Register, words: seq<byte>, reg: Register, link: Link)
    requires WellFormed(other) && Apartly(other, reg) && |words| == 2 * other.count
    ensures SpotOf(AcceptSlice(o, other, words, link), reg) == SpotOf(o, reg)
  {
    FilterIsLocal(o.client.memo, o.client.memo, other, Decode(words, other, link.e), link);
    hide Accept, Decode;
  }

  lemma SliceHere(o: Outcome, reg: Register, words: seq<byte>, link: Link)
    requires WellFormed(reg) && Due(SpotOf(o, reg)) && |words| == 2 * reg.count
    ensures ReadWith(SpotOf(o, reg), SpotOf(AcceptSlice(o, reg, words, link), reg), reg, Some(words), link)
  {
    AcceptIs(o.client.memo, reg, words, link);
    hide Accept, Decode, At, Passes;
  }

  // ---------- lists and groups ----------

  ghost predicate AllApart(regs: seq<Register>, reg: Register) {
    forall x :: x in regs ==> Apartly(x, reg)
  }

  lemma FirstIsApart(regs: seq<Register>)
    requires Distinct(regs) && regs != []
    ensures Distinct(regs[1..]) && AllApart(regs[1..], regs[0])
    ensures forall x :: x in regs ==> x == regs[0] || (x in regs[1..] && Apartly(regs[0], x))
  {
    var rest := regs[1..];
    assert regs == [regs[0]] + rest;
    forall x | x in rest ensures Apartly(x, regs[0]) {
      var k :| 0 <= k < |rest| && rest[k] == x;
      assert regs[k + 1] == x;
    }
  }

  lemma {:induction false} EachElsewhere(o: Outcome, regs: seq<Register>, reg: Register, link: Link)
    requires AllWellFormed(regs) && AllApart(regs, reg)
    ensures SpotOf(OneByOne(o, regs, link), reg) == SpotOf(o, reg)
    decreases |regs|
  {
    hide ReadStep, SpotOf;
    if regs != [] && o.alive {
      assert regs[0] in regs;
      StepElsewhere(o, regs[0], reg, link);
      EachElsewhere(ReadStep(o, regs[0], link), regs[1..], reg, link);
    }
  }

  lemma {:induction false} EachReads(o: Outcome, regs: seq<Register>, reg: Register, link: Link)
    requires AllWellFormed(regs) && Distinct(regs) && reg in regs
    requires Due(SpotOf(o, reg)) && OneByOne(o, regs, link).alive
    ensures ReadWith(SpotOf(o, reg), SpotOf(OneByOne(o, regs, link), reg), reg,
                     Answered(link.device, reg.address, reg.count), link)
    decreases |regs|
  {
    FirstIsApart(regs);
    hide ReadStep, SpotOf, Distinct, ReadWith, Answered, Due;
    var o1 := ReadStep(o, regs[0], link);
    if reg == regs[0] {
      StepHere(o, reg, link);
      EachElsewhere(o1, regs[1..], reg, link);
    } else {
      StepElsewhere(o, regs[0], reg, link);
      EachReads(o1, regs[1..], reg, link);
    }
  }

  lemma {:induction false} SlicesElsewhere(o: Outcome, group: seq<Register>, raw: seq<byte>, reg: Register, link: Link)
    requires AllWellFormed(group) && AllApart(group, reg) && |raw| == 2 * TotalCount(group)
    ensures SpotOf(AcceptSlices(o, group, raw, link), reg) == SpotOf(o, reg)
    decreases |group|
  {
    hide AcceptSlice, SpotOf;
    if group != [] {
      var first := group[0];
      assert first in group;
      SliceElsewhere(o, first, raw[..2 * first.count], reg, link);
      var o1 := AcceptSlice(o, first, raw[..2 * first.count], link);
      SlicesElsewhere(o1, group[1..], raw[2 * first.count..], reg, link);
    }
  }

  lemma {:induction false} SlicesRead(o: Outcome, group: seq<Register>, raw: seq<byte>, reg: Register, link: Link)
    requires AllWellFormed(group) && Distinct(group) && Contiguous(group) && reg in group
    requires Due(SpotOf(o, reg)) && |raw| == 2 * TotalCount(group)
    ensures
      var k := 2 * (reg.address - group[0].address);
      && 0 <= k <= k + 2 * reg.count <= |raw|
      && ReadWith(SpotOf(o, reg), SpotOf(AcceptSlices(o, group, raw, link), reg), reg,
                  Some(raw[k..k + 2 * reg.count]), link)
    decreases |group|
  {
    hide AcceptSlice, SpotOf, Distinct, ReadWith, Due, Contiguous, Decode, WellFormed;
    GroupCovers(group, reg);
    FirstIsApart(group);
    var first, rest := group[0], group[1..];
    var left := raw[2 * first.count..];
    var o1 := AcceptSlice(o, first, raw[..2 * first.count], link);
    if reg == first {
      SliceHere(o, reg, raw[..2 * first.count], link);
      SlicesElsewhere(o1, rest, left, reg, link);
    } else {
      ContiguousTail(group);
      SliceElsewhere(o, first, raw[..2 * first.count], reg, link);
      SlicesRead(o1, rest, left, reg, link);
      GroupCovers(rest, reg);
      LaterSlice(raw, 2 * first.count, 2 * (reg.address - rest[0].address), 2 * reg.count);
    }
  }

  lemma LaterSlice(raw: seq<byte>, n: nat, k: nat, m: nat)
    requires n + k + m <= |raw|
    ensures raw[n..][k..k + m] == raw[n + k..n + k + m]
  {}

  lemma {:induction false} SlicesStayAlive(o: Outcome, group: seq<Register>, raw: seq<byte>, link: Link)
    requires AllWellFormed(group) && |raw| == 2 * TotalCount(group)
    ensures AcceptSlices(o, group, raw, link).alive == o.alive
    decreases |group|
  {
    if group != [] {
      var first := group[0];
      assert WellFormed(first);
      AcceptSliceAlive(o, first, raw[..2 * first.count], link);
      hide AcceptSlice;
      SlicesStayAlive(AcceptSlice(o, first, raw[..2 * first.count], link), group[1..], raw[2 * first.count..], link);
    }
  }

  lemma GroupElsewhere(o: Outcome, group: seq<Register>, reg: Register, link: Link)
    requires AllWellFormed(group) && group != [] && AllApart(group, reg)
    ensures SpotOf(ReadGroup(o, group, link), reg) == SpotOf(o, reg)
  {
    var reply := RawRead(link.device, group[0].address, TotalCount(group));
    hide SpotOf, OneByOne, AcceptSlices;
    EachElsewhere(o, group, reg, link);
    if |group| > 1 && reply.Bytes? {
      SlicesElsewhere(o, group, reply.raw, reg, link);
    }
  }

  lemma RawIsAnswered(device: Device, address: nat, count: nat)
    ensures Answered(device, address, count)
         == if RawRead(device, address, count).Bytes? then Some(RawRead(device, address, count).raw) else None
  {}

  lemma GroupReads(o: Outcome, group: seq<Register>, reg: Register, link: Link)
    requires AllWellFormed(group) && Distinct(group) && Contiguous(group) && reg in group
    requires Due(SpotOf(o, reg)) && ReadGroup(o, group, link).alive
    ensures ReadWith(SpotOf(o, reg), SpotOf(ReadGroup(o, group, link), reg), reg,
                     OwnWords(link.device, group, reg), link)
  {
    hide SpotOf, OneByOne, AcceptSlices, ReadWith, Distinct, Due, Contiguous, RawRead, Answered, TotalCount, WellFormed;
    var reply := RawRead(link.device, group[0].address, TotalCount(group));
    RawIsAnswered(link.device, group[0].address, TotalCount(group));
    if |group| > 1 && reply.Bytes? {
      SlicesRead(o, group, reply.raw, reg, link);
    } else {
      EachReads(o, group, reg, link);
    }
  }

  lemma {:induction false} GroupsElsewhere(o: Outcome, groups: seq<seq<Register>>, reg: Register, link: Link)
    requires ReadableGroups(groups) && AllApart(Flatten(groups), reg)
    ensures SpotOf(ReadGroups(o, groups, link), reg) == SpotOf(o, reg)
    decreases |groups|
  {
    hide SpotOf, ReadGroup;
    if groups != [] && o.alive {
      var g, rest := groups[0], groups[1..];
      assert groups == [g] + rest && g in groups;
      FlattenCons(g, rest);
      hide Flatten;
      assert forall x :: x in g || x in Flatten(rest) ==> x in Flatten(groups);
      GroupElsewhere(o, g, reg, link);
      GroupsElsewhere(ReadGroup(o, g, link), rest, reg, link);
    }
  }

  lemma {:induction false} GroupsRead(o: Outcome, groups: seq<seq<Register>>, g: seq<Register>, reg: Register,
                                      link: Link)
    requires ReadableGroups(groups) && Distinct(Flatten(groups)) && (forall h :: h in groups ==> Contiguous(h))
    requires g in groups && reg in g && Due(SpotOf(o, reg)) && ReadGroups(o, groups, link).alive
    ensures ReadWith(SpotOf(o, reg), SpotOf(ReadGroups(o, groups, link), reg), reg,
                     OwnWords(link.device, g, reg), link)
    decreases |groups|
  {
    var first, rest := groups[0], groups[1..];
    assert groups == [first] + rest && first in groups && forall h :: h in rest ==> h in groups;
    FlattenCons(first, rest);
    DistinctParts(first, Flatten(rest));
    PartsApart(first, Flatten(rest));
    hide SpotOf, ReadGroup, ReadWith, Distinct, Due, Flatten, Contiguous, OwnWords;
    var o1 := ReadGroup(o, first, link);
    if reg in first {
      if g != first {
        GroupInFlatten(rest, g, reg);
      }
      assert g == first;
      GroupsElsewhere(o1, rest, reg, link);
      GroupStaysAlive(o1, rest, link);
      GroupReads(o, first, reg, link);
    } else {
      GroupInFlatten(rest, g, reg);
      GroupElsewhere(o, first, reg, link);
      GroupsRead(o1, rest, g, reg, link);
    }
  }

  lemma {:induction false} GroupStaysAlive(o: Outcome, groups: seq<seq<Register>>, link: Link)
    requires ReadableGroups(groups) && ReadGroups(o, groups, link).alive
    ensures o.alive
  {}

  lemma PartsApart(front: seq<Register>, back: seq<Register>)
    requires Distinct(front + back)
    ensures forall x, y :: x in front && y in back ==> x != y && Apartly(x, y) && Apartly(y, x)
  {
    var all := front + back;
    forall x, y | x in front && y in back ensures Apartly(x, y) && x != y {
      var i :| 0 <= i < |front| && front[i] == x;
      var j :| 0 <= j < |back| && back[j] == y;
      assert all[i] == x && all[|front| + j] == y;
    }
  }

  lemma {:induction false} GroupInFlatten(groups: seq<seq<Register>>, g: seq<Register>, reg: Register)
    requires g in groups && reg in g
    ensures reg in Flatten(groups)
    decreases |groups|
  {
    var m := |groups| - 1;
    if g != groups[m] {
      GroupInFlatten(groups[..m], g, reg);
    }
  }

  // ---------- the batch ----------

  /** The batch after its first pass, and its groups. */
  lemma BatchIs(c: Client, regs: seq<Register>, link: Link)
    requires AllWellFormed(regs) && Distinct(regs)
    ensures
      var groups := BatchGroups(c, regs, link.now);
      var o := Outcome(c.(backoff := ExpireAll(c.backoff, SortByAddress(regs), link.now)), map[], true);
      && Batch(c, regs, link) == ReadGroups(o, groups, link)
      && Distinct(Flatten(groups)) && (forall g :: g in groups ==> Contiguous(g))
      && (forall reg :: reg in Flatten(groups) <==> reg in regs && !Suppressed(c.backoff, reg.address, link.now))
      && (forall reg :: reg in Flatten(groups) ==> reg.address !in o.client.backoff.suppressed)
  {
    var sorted := SortByAddress(regs);
    var kept := Kept(c.backoff, sorted, link.now);
    GroupsSplit(kept);
    GroupMembers(Groups(kept), kept);
    SortedDistinct(regs);
    KeptDistinct(c.backoff, sorted, link.now);
    KeptUnsuppressed(c.backoff, sorted, link.now);
    hide Kept, SortByAddress, ExpireAll, Distinct, Groups, Suppressed, Contiguous, Flatten;
    hide ReadGroups;
  }

  lemma {:induction false} GroupOf(groups: seq<seq<Register>>, reg: Register) returns (g: seq<Register>)
    requires reg in Flatten(groups)
    ensures g in groups && reg in g
    decreases |groups|
  {
    var m := |groups| - 1;
    if reg in groups[m] { g := groups[m]; } else { g := GroupOf(groups[..m], reg); }
  }

  /** What a batch makes of one register, whatever the device answers: a suppressed register is left
      as it is and not in the result; any other is in the result, under its name, with its decoded
      words or the last good value in their place, exactly if it got words and one of the two may
      be used. */
  lemma BatchReturns(c: Client, regs: seq<Register>, link: Link, reg: Register)
    requires AllWellFormed(regs) && Distinct(regs) && reg in regs && Batch(c, regs, link).alive
    ensures
      var b, cell := Batch(c, regs, link), At(c.memo, reg.address);
      if Suppressed(c.backoff, reg.address, link.now)
      then reg.name !in b.values && At(b.client.memo, reg.address) == cell
      else exists g ::
        && g in BatchGroups(c, regs, link.now) && Contiguous(g) && reg in g
        && ValueAt(b.values, reg.name) == Returned(cell, reg, OwnWords(link.device, g, reg), link)
        && At(b.client.memo, reg.address) == Remembered(cell, reg, OwnWords(link.device, g, reg), link)
  {
    var groups := BatchGroups(c, regs, link.now);
    var o := Outcome(c.(backoff := ExpireAll(c.backoff, SortByAddress(regs), link.now)), map[], true);
    BatchIs(c, regs, link);
    hide Distinct, BatchGroups, ReadGroups, Suppressed, ExpireAll, SortByAddress, Batch, Returned, Remembered, OwnWords;
    hide Contiguous, At;
    if Suppressed(c.backoff, reg.address, link.now) {
      SuppressedIsApart(regs, Flatten(groups), reg);
      GroupsElsewhere(o, groups, reg, link);
    } else {
      var g := GroupOf(groups, reg);
      GroupsRead(o, groups, g, reg, link);
    }
  }

  lemma SuppressedIsApart(regs: seq<Register>, some: seq<Register>, reg: Register)
    requires Distinct(regs) && reg in regs && reg !in some && forall x :: x in some ==> x in regs
    ensures AllApart(some, reg)
  {
    forall x | x in some ensures Apartly(x, reg) {
      var i :| 0 <= i < |regs| && regs[i] == x;
      var j :| 0 <= j < |regs| && regs[j] == reg;
    }
  }

  function Beyond(regs: seq<Register>): (a: nat)
    ensures forall reg :: reg in regs ==> reg.address < a
  {
    if regs == [] then 0
    else
      assert regs == [regs[0]] + regs[1..];
      var a := Beyond(regs[1..]);
      if regs[0].address < a then a else regs[0].address + 1
  }

  /** The result holds nothing but the names of the list. */
  lemma BatchReturnsOnly(c: Client, regs: seq<Register>, link: Link, name: string)
    requires AllWellFormed(regs) && Distinct(regs) && forall reg :: reg in regs ==> reg.name != name
    ensures name !in Batch(c, regs, link).values
  {
    var groups := BatchGroups(c, regs, link.now);
    var o := Outcome(c.(backoff := ExpireAll(c.backoff, SortByAddress(regs), link.now)), map[], true);
    BatchIs(c, regs, link);
    var nobody := Register(Beyond(regs), name, UINT16, 1, RO, POWER, false);
    assert AllApart(Flatten(groups), nobody);
    hide Distinct, BatchGroups, ReadGroups, Suppressed, ExpireAll, SortByAddress, Batch, At, Flatten;
    GroupsElsewhere(o, groups, nobody, link);
    assert SpotOf(o, nobody).value.None?;
  }

  // ---------- when a batch breaks off ----------

  /** None of the registers is suppressed. */
  ghost predicate Unbarred(o: Outcome, regs: seq<Register>) {
    forall reg :: reg in regs ==> !SpotOf(o, reg).suppressed
  }

  lemma StepAlive(o: Outcome, reg: Register, link: Link)
    requires WellFormed(reg) && !SpotOf(o, reg).suppressed
    ensures ReadStep(o, reg, link).alive <==> !link.device(reg.address, reg.count).ConnectionLost?
  {
    hide Accept, Decode, Put;
  }

  /** The link must survive every single read of these registers. */
  ghost predicate SinglesSurvive(device: Device, regs: seq<Register>) {
    forall reg :: reg in regs ==> !device(reg.address, reg.count).ConnectionLost?
  }

  lemma {:induction false} EachAlive(o: Outcome, regs: seq<Register>, link: Link)
    requires AllWellFormed(regs) && Distinct(regs) && o.alive && Unbarred(o, regs)
    ensures OneByOne(o, regs, link).alive <==> SinglesSurvive(link.device, regs)
    decreases |regs|
  {
    if regs != [] {
      FirstIsApart(regs);
      var reg, rest, o1 := regs[0], regs[1..], ReadStep(o, regs[0], link);
      assert reg in regs;
      StepAlive(o, reg, link);
      assert forall x :: x in rest ==> x in regs;
      hide ReadStep, SpotOf, Distinct;
      forall x | x in rest ensures !SpotOf(o1, x).suppressed {
        StepElsewhere(o, reg, x, link);
      }
      if o1.alive {
        EachAlive(o1, rest, link);
      }
    }
  }

  /** The link survives reading the group. */
  ghost predicate GroupSurvives(device: Device, group: seq<Register>)
    requires Contiguous(group)
  {
    (|group| >= 2 && Answered(device, group[0].address, Span(group)).Some?) || SinglesSurvive(device, group)
  }

  lemma GroupAlive(o: Outcome, group: seq<Register>, link: Link)
    requires AllWellFormed(group) && Distinct(group) && Contiguous(group) && o.alive && Unbarred(o, group)
    ensures ReadGroup(o, group, link).alive <==> GroupSurvives(link.device, group)
  {
    hide OneByOne, AcceptSlices, SinglesSurvive, Distinct, Unbarred, RawRead, Answered, TotalCount;
    var reply := RawRead(link.device, group[0].address, TotalCount(group));
    RawIsAnswered(link.device, group[0].address, TotalCount(group));
    EachAlive(o, group, link);
    if |group| > 1 && reply.Bytes? {
      SlicesStayAlive(o, group, reply.raw, link);
    }
  }

  lemma OthersUnbarred(o: Outcome, g: seq<Register>, others: seq<Register>, link: Link)
    requires AllWellFormed(g) && g != [] && Distinct(g + others) && Unbarred(o, g + others)
    ensures Unbarred(o, g) && Unbarred(ReadGroup(o, g, link), others)
  {
    PartsApart(g, others);
    hide ReadGroup, SpotOf, Distinct;
    assert forall x :: x in g || x in others ==> x in g + others;
    forall x | x in others ensures !SpotOf(ReadGroup(o, g, link), x).suppressed {
      GroupElsewhere(o, g, x, link);
    }
  }

  lemma {:induction false} GroupsAlive(o: Outcome, groups: seq<seq<Register>>, link: Link)
    requires ReadableGroups(groups) && Distinct(Flatten(groups)) && o.alive && Unbarred(o, Flatten(groups))
    requires forall g :: g in groups ==> Contiguous(g)
    ensures ReadGroups(o, groups, link).alive <==> forall g :: g in groups ==> GroupSurvives(link.device, g)
    decreases |groups|
  {
    if groups != [] {
      var g, rest, o1 := groups[0], groups[1..], ReadGroup(o, groups[0], link);
      assert groups == [g] + rest && g in groups && forall h :: h in groups ==> h == g || h in rest;
      FlattenCons(g, rest);
      DistinctParts(g, Flatten(rest));
      assert AllWellFormed(g) && Contiguous(g) && g != [] && ReadableGroups(rest);
      hide ReadGroup, SpotOf, Distinct, GroupSurvives, AllWellFormed, ReadableGroups, Flatten, Unbarred, Contiguous;
      OthersUnbarred(o, g, Flatten(rest), link);
      GroupAlive(o, g, link);
      if o1.alive {
        GroupsAlive(o1, rest, link);
      }
    }
  }

  /** A batch runs to its end exactly if the link survives every single read it needs: those of lone
      registers, and of the members of a group whose own request is not answered. */
  lemma BatchAlive(c: Client, regs: seq<Register>, link: Link)
    requires AllWellFormed(regs) && Distinct(regs)
    ensures Batch(c, regs, link).alive <==>
      forall g :: g in BatchGroups(c, regs, link.now) ==> Contiguous(g) && GroupSurvives(link.device, g)
  {
    var groups := BatchGroups(c, regs, link.now);
    var o := Outcome(c.(backoff := ExpireAll(c.backoff, SortByAddress(regs), link.now)), map[], true);
    BatchIs(c, regs, link);
    hide Distinct, BatchGroups, ReadGroups, Suppressed, ExpireAll, SortByAddress, Batch, Flatten, GroupSurvives, At,
      Contiguous;
    GroupsAlive(o, groups, link);
  }

  // ---------- on a device whose words stand still ----------

  lemma Middle<T>(a: seq<T>, b: seq<T>, c: seq<T>)
    ensures (a + (b + c))[|a|..|a| + |b|] == b
  {}

  lemma WordsWithin(mem: Memory, start: nat, k: nat, m: nat, p: nat)
    ensures ReadWords(mem, start, k + m + p)[2 * k..2 * k + 2 * m] == ReadWords(mem, start + k, m)
  {
    hide ReadWords, WordOf, PackWord;
    ReadWordsSplit(mem, start, k, m + p);
    ReadWordsSplit(mem, start + k, m, p);
    Middle(ReadWords(mem, start, k), ReadWords(mem, start + k, m), ReadWords(mem, start + k + m, p));
  }

  lemma OwnWordsStill(group: seq<Register>, reg: Register, link: Link, mem: Memory, regs: seq<Register>)
    requires Contiguous(group) && reg in group && reg in regs && Serves(link, mem, regs)
    ensures OwnWords(link.device, group, reg) == Some(RegisterBytes(mem, reg))
  {
    GroupCovers(group, reg);
    var k := reg.address - group[0].address;
    WordsWithin(mem, group[0].address, k, reg.count, TotalCount(group) - k - reg.count);
    assert RawRead(link.device, reg.address, reg.count) == Bytes(RegisterBytes(mem, reg));
    var whole := RawRead(link.device, group[0].address, TotalCount(group));
    assert whole.Bytes? ==> whole.raw == ReadWords(mem, group[0].address, TotalCount(group));
    hide ReadWords, Contiguous;
  }

  /** On a device whose words stand still, whether or not its large requests fail: a name is in the
      result exactly when its register is not suppressed and its own words decode into a value the
      guards let through, or else a last good value may stand in; and that is the value. */
  lemma StillBatchReturns(c: Client, regs: seq<Register>, link: Link, mem: Memory, reg: Register)
    requires AllWellFormed(regs) && Distinct(regs) && reg in regs && Serves(link, mem, regs)
    ensures
      var values := Batch(c, regs, link).values;
      var v := Decode(RegisterBytes(mem, reg), reg, link.e);
      var standsIn := link.policy == KeepLast && reg.address in c.memo.lastGood;
      && (reg.name in values <==> !Suppressed(c.backoff, reg.address, link.now) && (Passes(reg, v) || standsIn))
      && (reg.name in values ==> values[reg.name] == if Passes(reg, v) then v else c.memo.lastGood[reg.address])
  {
    BatchRefinesOneByOne(c, regs, link, mem);
    BatchReturns(c, regs, link, reg);
    hide Distinct, BatchGroups, Suppressed, Batch, OwnWords, Passes, RegisterBytes, Decode, Serves, Contiguous;
    if !Suppressed(c.backoff, reg.address, link.now) {
      var g :| g in BatchGroups(c, regs, link.now) && Contiguous(g) && reg in g
        && ValueAt(Batch(c, regs, link).values, reg.name)
           == Returned(At(c.memo, reg.address), reg, OwnWords(link.device, g, reg), link);
      OwnWordsStill(g, reg, link, mem, regs);
    }
  }
}
