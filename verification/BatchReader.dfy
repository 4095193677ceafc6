/** Reading a list of registers (modbus_client.py): one request per run of adjacent registers
    against one request per register, and the back-off of registers the model does not have. */
module BatchReader {
  import opened Registers
  import opened RegisterCodec
  import opened QualityFilter

  const STRIKES_THRESHOLD := 3
  const RESET_INTERVAL := 120.0

  // ---------- the unavailable-register back-off ----------

  datatype Backoff = Backoff(strikes: map<nat, nat>, suppressed: map<nat, real>)

  function StrikesOf(u: Backoff, a: nat, default: nat): nat {
    if a in u.strikes then u.strikes[a] else default
  }

  /** The answer of `_is_suppressed`. */
  predicate Suppressed(u: Backoff, a: nat, now: real) {
    a in u.suppressed && !(now - u.suppressed[a] > RESET_INTERVAL * StrikesOf(u, a, 1) as real)
  }

  /** Its side effect: an expired suppression is deleted. */
  function Expire(u: Backoff, a: nat, now: real): Backoff {
    if Suppressed(u, a, now) then u else u.(suppressed := u.suppressed - {a})
  }

  /** `_record_unavailable_strike`. */
  function Strike(u: Backoff, a: nat, now: real): Backoff {
    var n := StrikesOf(u, a, 0) + 1;
    Backoff(u.strikes[a := n], if n >= STRIKES_THRESHOLD then u.suppressed[a := now] else u.suppressed)
  }

  function ClearStrikes(u: Backoff, a: nat): Backoff {
    u.(strikes := u.strikes - {a})
  }

  // ---------- device and client state ----------

  /** How a request ended once the client's retries are done. */
  datatype Reply = Bytes(raw: seq<byte>) | IllegalAddress | OtherPermanent | ReadError | ConnectionLost

  /** The device during one poll: a reply to every (address, count). */
  type Device = (nat, nat) -> Reply

  /** `_raw_read`: an answer of the wrong length is a read error. */
  function RawRead(device: Device, address: nat, count: nat): (r: Reply)
    ensures r.Bytes? ==> |r.raw| == 2 * count
  {
    var r := device(address, count);
    if r.Bytes? && |r.raw| != 2 * count then ReadError else r
  }

  datatype Link = Link(device: Device, gen: nat, now: real, e: Endianness, policy: Policy)

  datatype Client = Client(memo: Memo, backoff: Backoff)

  /** A read of several registers: state, values by name, and whether the connection survived. */
  datatype Outcome = Outcome(client: Client, values: map<string, Value>, alive: bool)

  predicate AllWellFormed(regs: seq<Register>) {
    forall reg :: reg in regs ==> WellFormed(reg)
  }

  // ---------- one register at a time ----------

  /** `read_register` as its callers see it: a value, or a skipped register. */
  function ReadRegister(c: Client, reg: Register, link: Link): (r: (Client, Option<Value>, bool))
    requires WellFormed(reg)
  {
    var a := reg.address;
    var u := Expire(c.backoff, a, link.now);
    if Suppressed(c.backoff, a, link.now) then (c, None, true)
    else
      match RawRead(link.device, a, reg.count)
      case Bytes(raw) =>
        var (memo, v) := Accept(c.memo, reg, Decode(raw, reg, link.e), link.gen, link.policy);
        (Client(memo, ClearStrikes(u, a)), v, true)
      case IllegalAddress => (Client(c.memo, Strike(u, a, link.now)), None, true)
      case ConnectionLost => (Client(c.memo, u), None, false)
      case _ => (Client(c.memo, u), None, true)
  }

  function Put(values: map<string, Value>, name: string, v: Option<Value>): map<string, Value> {
    if v.Some? then values[name := v.value] else values
  }

  function ReadStep(o: Outcome, reg: Register, link: Link): Outcome
    requires WellFormed(reg)
  {
    var (c, v, alive) := ReadRegister(o.client, reg, link);
    Outcome(c, Put(o.values, reg.name, v), alive)
  }

  /** The reference: `read_register` on each register, skipping the ones that fail. */
  function OneByOne(o: Outcome, regs: seq<Register>, link: Link): Outcome
    requires AllWellFormed(regs)
    decreases |regs|
  {
    if regs == [] || !o.alive then o else OneByOne(ReadStep(o, regs[0], link), regs[1..], link)
  }

  // ---------- grouping ----------

  predicate Adjacent(a: Register, b: Register) {
    b.address == a.address + a.count
  }

  function Flatten(groups: seq<seq<Register>>): seq<Register> {
    if groups == [] then [] else Flatten(groups[..|groups| - 1]) + groups[|groups| - 1]
  }

  /** One read request can fetch the group. */
  predicate Contiguous(group: seq<Register>) {
    group != [] && forall i :: 1 <= i < |group| ==> Adjacent(group[i - 1], group[i])
  }

  /** The groups the scan has formed, the one still open included: a register joins the open
      group when it starts where the previous one ends, and opens a new one otherwise. */
  function Groups(regs: seq<Register>): (groups: seq<seq<Register>>)
    ensures groups == [] <==> regs == []
  {
    if regs == [] then []
    else
      var n := |regs| - 1;
      var before := Groups(regs[..n]);
      if n > 0 && Adjacent(regs[n - 1], regs[n])
      then before[..|before| - 1] + [before[|before| - 1] + [regs[n]]]
      else before + [[regs[n]]]
  }

  /** A way to read `regs` in order with one request per part. */
  ghost predicate IsSplit(parts: seq<seq<Register>>, regs: seq<Register>) {
    Flatten(parts) == regs && forall p :: p in parts ==> Contiguous(p)
  }

  lemma ExtendGroup(group: seq<Register>, reg: Register)
    requires Contiguous(group) && Adjacent(group[|group| - 1], reg)
    ensures Contiguous(group + [reg])
  {}

  lemma SplitAppend(parts: seq<seq<Register>>, regs: seq<Register>, p: seq<Register>)
    requires IsSplit(parts, regs) && Contiguous(p)
    ensures IsSplit(parts + [p], regs + p)
  {
    assert (parts + [p])[..|parts|] == parts;
  }

  lemma SplitDropLast(parts: seq<seq<Register>>, regs: seq<Register>)
    requires IsSplit(parts, regs) && parts != []
    ensures
      var m := |parts| - 1;
      && Contiguous(parts[m]) && IsSplit(parts[..m], Flatten(parts[..m]))
      && regs == Flatten(parts[..m]) + parts[m] && regs != []
      && regs[|regs| - 1] == parts[m][|parts[m]| - 1]
  {
    assert forall p :: p in parts[..|parts| - 1] ==> p in parts;
  }

  lemma SplitExtend(parts: seq<seq<Register>>, regs: seq<Register>, reg: Register)
    requires IsSplit(parts, regs) && parts != [] && regs != [] && Adjacent(regs[|regs| - 1], reg)
    ensures IsSplit(parts[..|parts| - 1] + [parts[|parts| - 1] + [reg]], regs + [reg])
  {
    var m := |parts| - 1;
    SplitDropLast(parts, regs);
    ExtendGroup(parts[m], reg);
    SplitAppend(parts[..m], Flatten(parts[..m]), parts[m] + [reg]);
    assert regs + [reg] == Flatten(parts[..m]) + (parts[m] + [reg]);
  }

  /** The groups concatenate to the input and each can be fetched by one request. */
  lemma {:induction false} GroupsSplit(regs: seq<Register>)
    ensures IsSplit(Groups(regs), regs)
  {
    hide IsSplit;
    if regs != [] {
      var n := |regs| - 1;
      GroupsSplit(regs[..n]);
      assert regs == regs[..n] + [regs[n]];
      if n > 0 && Adjacent(regs[n - 1], regs[n]) {
        SplitExtend(Groups(regs[..n]), regs[..n], regs[n]);
      } else {
        SplitAppend(Groups(regs[..n]), regs[..n], [regs[n]]);
      }
    } else {
      EmptySplit();
    }
  }

  lemma EmptySplit()
    ensures IsSplit([], [])
  {}

  /** Dropping the last register from a split leaves a split, with a part fewer if that register
      was a part of its own, and otherwise adjacent to the one before it. */
  lemma ShortenSplit(parts: seq<seq<Register>>, regs: seq<Register>) returns (shorter: seq<seq<Register>>)
    requires IsSplit(parts, regs) && regs != []
    ensures IsSplit(shorter, regs[..|regs| - 1])
    ensures |shorter| == |parts| - 1
            || (|shorter| == |parts| && |regs| > 1 && Adjacent(regs[|regs| - 2], regs[|regs| - 1]))
  {
    var m, n := |parts| - 1, |regs| - 1;
    SplitDropLast(parts, regs);
    var p := parts[m];
    var q := p[..|p| - 1];
    if |p| == 1 {
      shorter := parts[..m];
      assert regs[..n] == Flatten(shorter);
    } else {
      assert Contiguous(q) && Adjacent(p[|p| - 2], p[|p| - 1]);
      shorter := parts[..m] + [q];
      SplitAppend(parts[..m], Flatten(parts[..m]), q);
      assert regs[..n] == Flatten(parts[..m]) + q;
    }
  }

  /** The scan uses the fewest requests: no split of the same registers into address-contiguous
      reads has fewer parts. */
  lemma {:induction false} GroupsAreMinimal(parts: seq<seq<Register>>, regs: seq<Register>)
    requires IsSplit(parts, regs)
    ensures |Groups(regs)| <= |parts|
    decreases |regs|
  {
    if regs != [] {
      var shorter := ShortenSplit(parts, regs);
      GroupsAreMinimal(shorter, regs[..|regs| - 1]);
    }
  }

  /** In address order, none reaching into the next. */
  ghost predicate Apart(regs: seq<Register>) {
    && (forall reg :: reg in regs ==> reg.count >= 1)
    && (forall i, j :: 0 <= i < j < |regs| ==> regs[i].address + regs[i].count <= regs[j].address)
  }

  /** A set of requests, in any order, that together read the registers and nothing else. */
  ghost predicate Covers(parts: seq<seq<Register>>, regs: seq<Register>) {
    && (forall p :: p in parts ==> Contiguous(p))
    && (forall p, reg :: p in parts && reg in p ==> reg in regs)
    && (forall reg :: reg in regs ==> exists p :: p in parts && reg in p)
  }

  /** Where the groups of the scan start. */
  function Starts(regs: seq<Register>): set<nat> {
    if regs == [] then {}
    else
      var n := |regs| - 1;
      Starts(regs[..n]) + if n > 0 && Adjacent(regs[n - 1], regs[n]) then {} else {regs[n].address}
  }

  function FirstAddresses(parts: seq<seq<Register>>): (r: set<nat>)
    requires forall p :: p in parts ==> p != []
    ensures |r| <= |parts| && forall p: seq<Register> :: p in parts ==> p[0].address in r
  {
    if parts == [] then {}
    else
      assert parts[0] in parts && forall p :: p in parts <==> p == parts[0] || p in parts[1..];
      {parts[0][0].address} + FirstAddresses(parts[1..])
  }

  /** Some register starts there, and none ends there. */
  ghost predicate IsStart(a: nat, regs: seq<Register>) {
    (exists reg :: reg in regs && reg.address == a) && forall q :: q in regs ==> q.address + q.count != a
  }

  lemma ApartFront(regs: seq<Register>)
    requires Apart(regs) && regs != []
    ensures
      var n := |regs| - 1;
      && Apart(regs[..n]) && regs[n].count >= 1
      && forall q :: q in regs[..n] ==> q.count >= 1 && q.address + q.count <= regs[n].address
  {
    var n := |regs| - 1;
    assert forall q :: q in regs[..n] || q == regs[n] ==> q in regs;
    forall q | q in regs[..n] ensures q.address + q.count <= regs[n].address {
      var i :| 0 <= i < n && regs[..n][i] == q;
      assert regs[i] == q;
    }
  }

  lemma StartStays(a: nat, regs: seq<Register>)
    requires Apart(regs) && regs != [] && IsStart(a, regs[..|regs| - 1])
    ensures IsStart(a, regs) && a != regs[|regs| - 1].address
  {
    ApartFront(regs);
    var n := |regs| - 1;
    assert forall q :: q in regs <==> q in regs[..n] || q == regs[n];
  }

  /** No register of the list ends where a group starts, and there are as many starts as groups. */
  lemma {:induction false} StartsAreGroups(regs: seq<Register>)
    requires Apart(regs)
    ensures |Starts(regs)| == |Groups(regs)|
    ensures forall a :: a in Starts(regs) ==> IsStart(a, regs)
  {
    if regs != [] {
      var n := |regs| - 1;
      var front, last := regs[..n], regs[n];
      ApartFront(regs);
      StartsAreGroups(front);
      if n > 0 && !Adjacent(regs[n - 1], last) {
        NotAdjacentToAny(regs);
      }
      assert last in regs && (n == 0 ==> forall q :: q in regs ==> q == last);
      hide IsStart, Apart;
      forall a | a in Starts(front) ensures IsStart(a, regs) && a != last.address {
        StartStays(a, regs);
      }
    }
  }

  lemma NotAdjacentToAny(regs: seq<Register>)
    requires Apart(regs) && |regs| > 1 && !Adjacent(regs[|regs| - 2], regs[|regs| - 1])
    ensures IsStart(regs[|regs| - 1].address, regs)
  {
    var n := |regs| - 1;
    forall q | q in regs ensures q.address + q.count != regs[n].address {
      var i :| 0 <= i <= n && regs[i] == q;
      assert regs[n - 1] in regs && regs[n - 1].count >= 1 && regs[n].count >= 1;
      if i < n - 1 {
        assert regs[i].address + regs[i].count <= regs[n - 1].address;
      }
    }
  }

  /** In one request a register comes first or follows on another. */
  lemma HeadOrFollower(p: seq<Register>, reg: Register)
    requires Contiguous(p) && reg in p
    ensures reg == p[0] || exists q :: q in p && q.address + q.count == reg.address
  {
    var i :| 0 <= i < |p| && p[i] == reg;
    if i > 0 {
      assert Adjacent(p[i - 1], p[i]) && p[i - 1] in p;
    }
  }

  /** The scan uses the fewest requests: registers that do not overlap cannot be read by fewer
      address-contiguous requests, in whatever order and however put together. */
  lemma FewestRequests(parts: seq<seq<Register>>, regs: seq<Register>)
    requires Apart(regs) && Covers(parts, regs)
    ensures |Groups(regs)| <= |parts|
  {
    StartsAreGroups(regs);
    var heads := FirstAddresses(parts);
    forall a | a in Starts(regs) ensures a in heads {
      var reg :| reg in regs && reg.address == a;
      var p :| p in parts && reg in p;
      HeadOrFollower(p, reg);
    }
    SubsetSmaller(Starts(regs), heads);
  }

  lemma {:induction false} SubsetSmaller(s: set<nat>, t: set<nat>)
    requires s <= t
    ensures |s| <= |t|
  {
    if a :| a in s {
      SubsetSmaller(s - {a}, t - {a});
    }
  }

  // ---------- the batch ----------

  function TotalCount(group: seq<Register>): nat {
    if group == [] then 0 else group[0].count + TotalCount(group[1..])
  }

  /** Accept one register out of a group answer; only a value that is let through clears strikes. */
  function AcceptSlice(o: Outcome, reg: Register, bytes: seq<byte>, link: Link): Outcome
    requires WellFormed(reg) && |bytes| == 2 * reg.count
  {
    var (memo, v) := Accept(o.client.memo, reg, Decode(bytes, reg, link.e), link.gen, link.policy);
    var u := if v.Some? then ClearStrikes(o.client.backoff, reg.address) else o.client.backoff;
    Outcome(Client(memo, u), Put(o.values, reg.name, v), o.alive)
  }

  /** Slice one answer into the group's registers and accept each. */
  function AcceptSlices(o: Outcome, group: seq<Register>, raw: seq<byte>, link: Link): Outcome
    requires AllWellFormed(group) && |raw| == 2 * TotalCount(group)
    decreases |group|
  {
    if group == [] then o
    else
      var reg := group[0];
      assert WellFormed(reg);
      AcceptSlices(AcceptSlice(o, reg, raw[..2 * reg.count], link), group[1..], raw[2 * reg.count..], link)
  }

  /** One group: a lone register is read as such; a failed group request falls back to single reads. */
  function ReadGroup(o: Outcome, group: seq<Register>, link: Link): Outcome
    requires AllWellFormed(group) && group != []
  {
    if |group| == 1 then OneByOne(o, group, link)
    else
      match RawRead(link.device, group[0].address, TotalCount(group))
      case Bytes(raw) => AcceptSlices(o, group, raw, link)
      case _ => OneByOne(o, group, link)
  }

  predicate ReadableGroups(groups: seq<seq<Register>>) {
    forall g :: g in groups ==> g != [] && AllWellFormed(g)
  }

  function ReadGroups(o: Outcome, groups: seq<seq<Register>>, link: Link): Outcome
    requires ReadableGroups(groups)
    decreases |groups|
  {
    if groups == [] || !o.alive then o
    else ReadGroups(ReadGroup(o, groups[0], link), groups[1..], link)
  }

  predicate SortedByAddress(regs: seq<Register>) {
    forall i, j :: 0 <= i < j < |regs| ==> regs[i].address <= regs[j].address
  }

  /** `sorted(registers, key=address)`: stable. */
  function SortByAddress(regs: seq<Register>): (r: seq<Register>)
    ensures SortedByAddress(r)
    ensures forall x :: x in r <==> x in regs
  {
    if regs == [] then []
    else
      assert regs == regs[..|regs| - 1] + [regs[|regs| - 1]];
      Insert(SortByAddress(regs[..|regs| - 1]), regs[|regs| - 1])
  }

  function Insert(sorted: seq<Register>, reg: Register): (r: seq<Register>)
    requires SortedByAddress(sorted)
    ensures SortedByAddress(r)
    ensures forall x :: x in r <==> x in sorted || x == reg
  {
    if sorted == [] || sorted[|sorted| - 1].address <= reg.address then sorted + [reg]
    else
      var n := |sorted| - 1;
      assert sorted == sorted[..n] + [sorted[n]];
      var front := Insert(sorted[..n], reg);
      assert forall x :: x in front ==> x.address <= sorted[n].address;
      assert forall i :: 0 <= i < |front| ==> front[i] in front;
      front + [sorted[n]]
  }

  lemma {:induction false} InsertPermutes(sorted: seq<Register>, reg: Register)
    requires SortedByAddress(sorted)
    ensures multiset(Insert(sorted, reg)) == multiset(sorted) + multiset{reg}
  {
    if sorted != [] && sorted[|sorted| - 1].address > reg.address {
      var n := |sorted| - 1;
      assert sorted == sorted[..n] + [sorted[n]];
      InsertPermutes(sorted[..n], reg);
    }
  }

  lemma {:induction false} SortPermutes(regs: seq<Register>)
    ensures multiset(SortByAddress(regs)) == multiset(regs)
  {
    if regs != [] {
      var n := |regs| - 1;
      assert regs == regs[..n] + [regs[n]];
      SortPermutes(regs[..n]);
      InsertPermutes(SortByAddress(regs[..n]), regs[n]);
    }
  }

  /** The registers the first pass keeps, and the back-off it leaves. */
  function Kept(u: Backoff, regs: seq<Register>, now: real): (r: seq<Register>)
    ensures forall reg :: reg in r ==> reg in regs && !Suppressed(u, reg.address, now)
  {
    if regs == [] then []
    else (if Suppressed(u, regs[0].address, now) then [] else [regs[0]]) + Kept(u, regs[1..], now)
  }

  function ExpireAll(u: Backoff, regs: seq<Register>, now: real): Backoff
    decreases |regs|
  {
    if regs == [] then u else ExpireAll(Expire(u, regs[0].address, now), regs[1..], now)
  }

  /** `read_registers_batch`. */
  function Batch(c: Client, regs: seq<Register>, link: Link): Outcome
    requires AllWellFormed(regs)
  {
    var sorted := SortByAddress(regs);
    var kept := Kept(c.backoff, sorted, link.now);
    var groups := Groups(kept);
    GroupsSplit(kept);
    GroupMembers(groups, kept);
    ReadGroups(Outcome(c.(backoff := ExpireAll(c.backoff, sorted, link.now)), map[], true), groups, link)
  }

  lemma {:induction false} GroupMembers(groups: seq<seq<Register>>, regs: seq<Register>)
    requires Flatten(groups) == regs
    ensures forall g, reg :: g in groups && reg in g ==> reg in regs
  {
    if groups != [] {
      var m := |groups| - 1;
      GroupMembers(groups[..m], Flatten(groups[..m]));
      assert forall g :: g in groups ==> g == groups[m] || g in groups[..m];
    }
  }

  // ---------- the batch refines the one-by-one reading ----------

  /** The device holds `mem` still: a register on its own reads fine, and a larger request is
      either answered with the words there or fails in whatever way. */
  ghost predicate Serves(link: Link, mem: Memory, regs: seq<Register>) {
    && (forall reg :: reg in regs ==> RawRead(link.device, reg.address, reg.count) == Bytes(RegisterBytes(mem, reg)))
    && (forall a, n :: RawRead(link.device, a, n).Bytes? ==> RawRead(link.device, a, n).raw == ReadWords(mem, a, n))
  }

  datatype Reading = Reading(memo: Memo, values: map<string, Value>)

  function AcceptStep(x: Reading, reg: Register, mem: Memory, link: Link): Reading
    requires WellFormed(reg)
  {
    var (memo, v) := Accept(x.memo, reg, Decode(RegisterBytes(mem, reg), reg, link.e), link.gen, link.policy);
    Reading(memo, Put(x.values, reg.name, v))
  }

  /** Accepting the registers' own words in order: all that either way of reading amounts to. */
  function AcceptEach(x: Reading, regs: seq<Register>, mem: Memory, link: Link): Reading
    requires AllWellFormed(regs)
    decreases |regs|
  {
    if regs == [] then x else AcceptEach(AcceptStep(x, regs[0], mem, link), regs[1..], mem, link)
  }

  function ReadingOf(o: Outcome): Reading { Reading(o.client.memo, o.values) }

  /** The back-offs suppress the same addresses, and store the same suppression times. */
  ghost predicate SameSuppression(u: Backoff, v: Backoff, now: real) {
    u.suppressed == v.suppressed && forall a :: Suppressed(u, a, now) <==> Suppressed(v, a, now)
  }

  lemma ExpireKeeps(u: Backoff, a: nat, now: real)
    ensures forall b :: Suppressed(Expire(u, a, now), b, now) <==> Suppressed(u, b, now)
  {}

  lemma ExpireStatus(u: Backoff, v: Backoff, a: nat, now: real)
    requires SameSuppression(u, v, now)
    ensures SameSuppression(Expire(u, a, now), Expire(v, a, now), now)
    ensures forall b :: Suppressed(Expire(u, a, now), b, now) <==> Suppressed(u, b, now)
  {
    ExpireKeeps(u, a, now);
    ExpireKeeps(v, a, now);
  }

  lemma ClearStatus(u: Backoff, a: nat, now: real)
    requires !Suppressed(u, a, now)
    ensures SameSuppression(ClearStrikes(Expire(u, a, now), a), Expire(u, a, now), now)
  {}

  lemma {:induction false} KeptStable(u: Backoff, v: Backoff, regs: seq<Register>, now: real)
    requires forall a :: Suppressed(u, a, now) <==> Suppressed(v, a, now)
    ensures Kept(u, regs, now) == Kept(v, regs, now)
  {
    if regs != [] { KeptStable(u, v, regs[1..], now); }
  }

  lemma {:induction false} ExpireAllStatus(u: Backoff, v: Backoff, regs: seq<Register>, now: real)
    requires SameSuppression(u, v, now)
    ensures ExpireAll(u, regs, now).suppressed == ExpireAll(v, regs, now).suppressed
    ensures ExpireAll(u, regs, now).strikes == u.strikes
    ensures forall a :: Suppressed(ExpireAll(u, regs, now), a, now) <==> Suppressed(u, a, now)
    decreases |regs|
  {
    if regs != [] {
      var a := regs[0].address;
      ExpireStatus(u, v, a, now);
      ExpireAllStatus(Expire(u, a, now), Expire(v, a, now), regs[1..], now);
    }
  }

  function Addresses(regs: seq<Register>): (r: set<nat>)
    ensures forall a :: a in r <==> exists reg :: reg in regs && reg.address == a
  {
    if regs == [] then {} else {regs[0].address} + Addresses(regs[1..])
  }

  lemma ReadStepAccepts(o: Outcome, reg: Register, link: Link, mem: Memory)
    requires WellFormed(reg) && o.alive
    requires RawRead(link.device, reg.address, reg.count) == Bytes(RegisterBytes(mem, reg))
    ensures
      var o1 := ReadStep(o, reg, link);
      && o1.alive
      && if Suppressed(o.client.backoff, reg.address, link.now) then o1 == o
         else
           && ReadingOf(o1) == AcceptStep(ReadingOf(o), reg, mem, link)
           && o1.client.backoff == ClearStrikes(Expire(o.client.backoff, reg.address, link.now), reg.address)
  {}

  lemma AcceptEachCons(x: Reading, reg: Register, rest: seq<Register>, mem: Memory, link: Link)
    requires WellFormed(reg) && AllWellFormed(rest)
    ensures AcceptEach(x, [reg] + rest, mem, link) == AcceptEach(AcceptStep(x, reg, mem, link), rest, mem, link)
  {
    hide AcceptStep;
    assert ([reg] + rest)[1..] == rest;
  }

  /** `r` is what accepting the kept registers in order, and clearing their strikes, leaves of `o`. */
  ghost predicate AcceptsKept(o: Outcome, r: Outcome, regs: seq<Register>, link: Link, mem: Memory)
    requires AllWellFormed(regs)
  {
    var kept := Kept(o.client.backoff, regs, link.now);
    && r.alive
    && ReadingOf(r) == AcceptEach(ReadingOf(o), kept, mem, link)
    && r.client.backoff == Backoff(o.client.backoff.strikes - Addresses(kept),
                                   ExpireAll(o.client.backoff, regs, link.now).suppressed)
  }

  lemma AcceptsKeptCons(o: Outcome, o1: Outcome, r: Outcome, regs: seq<Register>, link: Link, mem: Memory)
    requires AllWellFormed(regs) && regs != []
    requires
      var a := regs[0].address;
      if Suppressed(o.client.backoff, a, link.now) then o1 == o
      else && ReadingOf(o1) == AcceptStep(ReadingOf(o), regs[0], mem, link)
           && o1.client.backoff == ClearStrikes(Expire(o.client.backoff, a, link.now), a)
    requires AcceptsKept(o1, r, regs[1..], link, mem)
    ensures AcceptsKept(o, r, regs, link, mem)
  {
    hide AcceptStep, Suppressed;
    var u, u1, reg := o.client.backoff, o1.client.backoff, regs[0];
    var later := Kept(u1, regs[1..], link.now);
    KeptAfterOne(u, u1, regs, link.now);
    if !Suppressed(u, reg.address, link.now) {
      AcceptEachCons(ReadingOf(o), reg, later, mem, link);
      assert Addresses([reg] + later) == {reg.address} + Addresses(later) by {
        assert ([reg] + later)[1..] == later;
      }
      assert u.strikes - ({reg.address} + Addresses(later)) == u.strikes - {reg.address} - Addresses(later);
    } else {
      assert Kept(u, regs, link.now) == later;
    }
  }

  /** One register at a time: the kept registers are accepted in order and lose their strikes. */
  lemma {:induction false} OneByOneAccepts(o: Outcome, regs: seq<Register>, link: Link, mem: Memory)
    requires AllWellFormed(regs) && Serves(link, mem, regs) && o.alive
    ensures AcceptsKept(o, OneByOne(o, regs, link), regs, link, mem)
    decreases |regs|
  {
    if regs != [] {
      var o1 := ReadStep(o, regs[0], link);
      assert regs[0] in regs;
      ReadStepAccepts(o, regs[0], link, mem);
      assert forall reg :: reg in regs[1..] ==> reg in regs;
      OneByOneAccepts(o1, regs[1..], link, mem);
      AcceptsKeptCons(o, o1, OneByOne(o1, regs[1..], link), regs, link, mem);
    } else {
      assert o.client.backoff.strikes - {} == o.client.backoff.strikes;
    }
  }

  /** Reading or skipping one register changes nothing for the ones after it. */
  lemma KeptAfterOne(u: Backoff, u1: Backoff, regs: seq<Register>, now: real)
    requires regs != []
    requires
      var a := regs[0].address;
      if Suppressed(u, a, now) then u1 == u else u1 == ClearStrikes(Expire(u, a, now), a)
    ensures Kept(u, regs, now)
         == (if Suppressed(u, regs[0].address, now) then [] else [regs[0]]) + Kept(u1, regs[1..], now)
    ensures ExpireAll(u, regs, now).suppressed == ExpireAll(u1, regs[1..], now).suppressed
  {
    var a := regs[0].address;
    var expired := Expire(u, a, now);
    ExpireKeeps(u, a, now);
    if !Suppressed(u, a, now) {
      ClearStatus(u, a, now);
    }
    KeptStable(u, u1, regs[1..], now);
    ExpireAllStatus(u1, expired, regs[1..], now);
  }

  /** `r` is what accepting all of `regs` in order leaves of `o`: the suppressions are as before,
      and only strikes of these registers may be gone. */
  ghost predicate AcceptsAll(o: Outcome, r: Outcome, regs: seq<Register>, link: Link, mem: Memory)
    requires AllWellFormed(regs)
  {
    && r.alive
    && ReadingOf(r) == AcceptEach(ReadingOf(o), regs, mem, link)
    && r.client.backoff.suppressed == o.client.backoff.suppressed
    && (forall a :: a in r.client.backoff.strikes ==>
          a in o.client.backoff.strikes && r.client.backoff.strikes[a] == o.client.backoff.strikes[a])
    && (forall a :: a in o.client.backoff.strikes && a !in Addresses(regs) ==> a in r.client.backoff.strikes)
  }

  lemma {:induction false} AcceptEachAppend(x: Reading, front: seq<Register>, back: seq<Register>,
                                            mem: Memory, link: Link)
    requires AllWellFormed(front) && AllWellFormed(back)
    ensures AllWellFormed(front + back)
    ensures AcceptEach(x, front + back, mem, link) == AcceptEach(AcceptEach(x, front, mem, link), back, mem, link)
    decreases |front|
  {
    hide AcceptStep;
    if front == [] {
      assert front + back == back;
    } else {
      AcceptEachAppend(AcceptStep(x, front[0], mem, link), front[1..], back, mem, link);
      AcceptEachCons(x, front[0], front[1..] + back, mem, link);
      assert front + back == [front[0]] + (front[1..] + back);
    }
  }

  lemma AcceptsAllCompose(o: Outcome, p: Outcome, r: Outcome, front: seq<Register>, back: seq<Register>,
                          link: Link, mem: Memory)
    requires AllWellFormed(front) && AllWellFormed(back)
    requires AcceptsAll(o, p, front, link, mem) && AcceptsAll(p, r, back, link, mem)
    ensures AllWellFormed(front + back) && AcceptsAll(o, r, front + back, link, mem)
  {
    AcceptEachAppend(ReadingOf(o), front, back, mem, link);
    forall a | a in o.client.backoff.strikes && a !in Addresses(front + back)
      ensures a in r.client.backoff.strikes
    {
      assert forall reg :: reg in front || reg in back ==> reg in front + back;
      assert a !in Addresses(front) && a !in Addresses(back);
    }
  }

  lemma {:induction false} ReadWordsSplit(mem: Memory, start: nat, n: nat, m: nat)
    ensures ReadWords(mem, start, n + m) == ReadWords(mem, start, n) + ReadWords(mem, start + n, m)
  {
    if m > 0 {
      ReadWordsSplit(mem, start, n, m - 1);
    } else {
      assert ReadWords(mem, start + n, 0) == [];
    }
  }

  lemma SliceAccepts(o: Outcome, reg: Register, link: Link, mem: Memory)
    requires WellFormed(reg) && o.alive
    ensures AllWellFormed([reg]) && AcceptsAll(o, AcceptSlice(o, reg, RegisterBytes(mem, reg), link), [reg], link, mem)
  {
    AcceptEachCons(ReadingOf(o), reg, [], mem, link);
    assert [reg] + [] == [reg];
    assert reg in [reg];
    assert reg.address in Addresses([reg]);
  }

  lemma ContiguousTail(group: seq<Register>)
    requires Contiguous(group) && |group| > 1
    ensures Contiguous(group[1..]) && group[1].address == group[0].address + group[0].count
  {
    var rest := group[1..];
    assert Adjacent(group[0], group[1]);
    forall i | 1 <= i < |rest| ensures Adjacent(rest[i - 1], rest[i]) {
      assert Adjacent(group[i + 1 - 1], group[i + 1]);
    }
  }

  /** A request for a whole group covers each of its registers. */
  lemma {:induction false} GroupCovers(group: seq<Register>, reg: Register)
    requires Contiguous(group) && reg in group
    ensures group[0].address <= reg.address
    ensures reg.address + reg.count <= group[0].address + TotalCount(group)
    decreases |group|
  {
    if reg != group[0] {
      ContiguousTail(group);
      GroupCovers(group[1..], reg);
    }
  }

  lemma SliceOff(mem: Memory, group: seq<Register>, raw: seq<byte>)
    requires group != [] && raw == ReadWords(mem, group[0].address, TotalCount(group))
    ensures raw[..2 * group[0].count] == RegisterBytes(mem, group[0])
    ensures raw[2 * group[0].count..] == ReadWords(mem, group[0].address + group[0].count, TotalCount(group[1..]))
  {
    ReadWordsSplit(mem, group[0].address, group[0].count, TotalCount(group[1..]));
  }

  /** The slice of a group answer that falls to a register is that register's own words. */
  lemma {:induction false} SlicesAccept(o: Outcome, group: seq<Register>, raw: seq<byte>, link: Link, mem: Memory)
    requires AllWellFormed(group) && o.alive
    requires group != [] ==> Contiguous(group) && raw == ReadWords(mem, group[0].address, TotalCount(group))
    requires |raw| == 2 * TotalCount(group)
    ensures AcceptsAll(o, AcceptSlices(o, group, raw, link), group, link, mem)
    decreases |group|
  {
    hide AcceptsAll, AcceptSlice, RegisterBytes, ReadWords;
    if group == [] {
      NothingAccepted(o, link, mem);
      return;
    }
    var reg, rest, left := group[0], group[1..], raw[2 * group[0].count..];
    SliceOff(mem, group, raw);
    if rest != [] {
      ContiguousTail(group);
    }
    assert WellFormed(reg);
    SliceAccepts(o, reg, link, mem);
    var o1 := AcceptSlice(o, reg, RegisterBytes(mem, reg), link);
    assert o1.alive by { AcceptSliceAlive(o, reg, RegisterBytes(mem, reg), link); }
    SlicesAccept(o1, rest, left, link, mem);
    AcceptsAllCompose(o, o1, AcceptSlices(o1, rest, left, link), [reg], rest, link, mem);
    assert [reg] + rest == group;
  }

  lemma NothingAccepted(o: Outcome, link: Link, mem: Memory)
    requires o.alive
    ensures AcceptsAll(o, o, [], link, mem)
  {}

  lemma AcceptSliceAlive(o: Outcome, reg: Register, bytes: seq<byte>, link: Link)
    requires WellFormed(reg) && |bytes| == 2 * reg.count
    ensures AcceptSlice(o, reg, bytes, link).alive == o.alive
  {}

  /** None of the registers has a stored suppression. */
  ghost predicate Unsuppressed(u: Backoff, regs: seq<Register>) {
    forall reg :: reg in regs ==> reg.address !in u.suppressed
  }

  lemma {:induction false} UnsuppressedKept(u: Backoff, regs: seq<Register>, now: real)
    requires Unsuppressed(u, regs)
    ensures Kept(u, regs, now) == regs && ExpireAll(u, regs, now) == u
  {
    if regs != [] {
      assert u.suppressed - {regs[0].address} == u.suppressed;
      assert Expire(u, regs[0].address, now) == u;
      UnsuppressedKept(u, regs[1..], now);
    }
  }

  lemma GroupAccepts(o: Outcome, group: seq<Register>, link: Link, mem: Memory)
    requires AllWellFormed(group) && Contiguous(group) && o.alive
    requires Serves(link, mem, group) && Unsuppressed(o.client.backoff, group)
    ensures AcceptsAll(o, ReadGroup(o, group, link), group, link, mem)
  {
    var reply := RawRead(link.device, group[0].address, TotalCount(group));
    if |group| > 1 && reply.Bytes? {
      SlicesAccept(o, group, reply.raw, link, mem);
    } else {
      OneByOneAccepts(o, group, link, mem);
      UnsuppressedKept(o.client.backoff, group, link.now);
    }
  }

  lemma ServesSubset(link: Link, mem: Memory, u: Backoff, regs: seq<Register>, some: seq<Register>)
    requires Serves(link, mem, regs) && Unsuppressed(u, regs)
    requires forall reg :: reg in some ==> reg in regs
    ensures Serves(link, mem, some) && Unsuppressed(u, some)
  {}

  lemma {:induction false} GroupsAccept(o: Outcome, groups: seq<seq<Register>>, regs: seq<Register>,
                                        link: Link, mem: Memory)
    requires ReadableGroups(groups) && o.alive && forall g :: g in groups ==> Contiguous(g)
    requires Serves(link, mem, regs) && Unsuppressed(o.client.backoff, regs)
    requires forall g, reg :: g in groups && reg in g ==> reg in regs
    ensures AllWellFormed(Flatten(groups)) && AcceptsAll(o, ReadGroups(o, groups, link), Flatten(groups), link, mem)
    decreases |groups|
  {
    if groups != [] {
      var g, rest := groups[0], groups[1..];
      assert g in groups;
      ServesSubset(link, mem, o.client.backoff, regs, g);
      GroupAccepts(o, g, link, mem);
      var o1 := ReadGroup(o, g, link);
      assert forall h :: h in rest ==> h in groups;
      GroupsAccept(o1, rest, regs, link, mem);
      AcceptsAllCompose(o, o1, ReadGroups(o1, rest, link), g, Flatten(rest), link, mem);
      FlattenCons(g, rest);
      assert groups == [g] + rest;
    }
  }

  lemma {:induction false} FlattenCons(g: seq<Register>, rest: seq<seq<Register>>)
    ensures Flatten([g] + rest) == g + Flatten(rest)
  {
    if rest != [] {
      var m := |rest| - 1;
      assert ([g] + rest)[..m + 1] == [g] + rest[..m];
      FlattenCons(g, rest[..m]);
    }
  }

  lemma {:induction false} KeptUnsuppressed(u: Backoff, regs: seq<Register>, now: real)
    ensures Unsuppressed(ExpireAll(u, regs, now), Kept(u, regs, now))
    ensures forall a :: a !in u.suppressed ==> a !in ExpireAll(u, regs, now).suppressed
    decreases |regs|
  {
    if regs != [] {
      var u1 := Expire(u, regs[0].address, now);
      ExpireKeeps(u, regs[0].address, now);
      KeptStable(u, u1, regs[1..], now);
      KeptUnsuppressed(u1, regs[1..], now);
    }
  }

  /** Reading in batches refines reading one by one: from any client state, on a device whose
      words stand still - whether or not its large requests fail - both give the same values, the
      same remembered values, connections and marks, and the same suppressions. A batch clears no
      more strikes than reading one by one does; which ones it keeps is in BatchStrikes. */
  lemma BatchRefinesOneByOne(c: Client, regs: seq<Register>, link: Link, mem: Memory)
    requires AllWellFormed(regs) && Serves(link, mem, regs)
    ensures
      var b := Batch(c, regs, link);
      var r := OneByOne(Outcome(c, map[], true), SortByAddress(regs), link);
      && b.alive && r.alive
      && b.values == r.values
      && b.client.memo == r.client.memo
      && b.client.backoff.suppressed == r.client.backoff.suppressed
      && r.client.backoff.strikes.Keys <= b.client.backoff.strikes.Keys <= c.backoff.strikes.Keys
  {
    var sorted := SortByAddress(regs);
    var kept := Kept(c.backoff, sorted, link.now);
    var groups := Groups(kept);
    var u := ExpireAll(c.backoff, sorted, link.now);
    var o := Outcome(c.(backoff := u), map[], true);
    GroupsSplit(kept);
    GroupMembers(groups, kept);
    KeptUnsuppressed(c.backoff, sorted, link.now);
    ExpireAllStatus(c.backoff, c.backoff, sorted, link.now);
    GroupsAccept(o, groups, kept, link, mem);
    OneByOneAccepts(Outcome(c, map[], true), sorted, link, mem);
  }
}
