/** The client object (modbus_client.py): its dictionaries are updated in place by the quality
    filter, the strike system, `read_register` and `read_registers_batch`. */
module ModbusClient {
  import opened Registers
  import opened RegisterCodec
  import opened QualityFilter
  import opened BatchReader

  class KostalModbusClient {
    const policy: Policy
    const endianness: Endianness
    var lastGoodValues: map<nat, Value>
    var observationGenerations: map<nat, nat>
    var retainedQualityAddresses: set<nat>
    var unavailableStrikes: map<nat, nat>
    var unavailableSuppressed: map<nat, real>

    constructor (policy: Policy, endianness: Endianness)
      ensures State() == Client(EMPTY_MEMO, Backoff(map[], map[]))
      ensures this.policy == policy && this.endianness == endianness
    {
      this.policy, this.endianness := policy, endianness;
      lastGoodValues, observationGenerations, retainedQualityAddresses := map[], map[], {};
      unavailableStrikes, unavailableSuppressed := map[], map[];
    }

    function State(): Client
      reads this
    {
      Client(Memo(lastGoodValues, observationGenerations, retainedQualityAddresses),
             Backoff(unavailableStrikes, unavailableSuppressed))
    }

    /** The link belongs to this client. */
    predicate Uses(link: Link)
    {
      link.policy == policy && link.e == endianness
    }

    /** `_is_suppressed`. */
    method IsSuppressed(address: nat, now: real) returns (r: bool)
      modifies this`unavailableSuppressed
      ensures r == Suppressed(old(State()).backoff, address, now)
      ensures State().backoff == Expire(old(State()).backoff, address, now)
    {
      if address !in unavailableSuppressed {
        assert unavailableSuppressed - {address} == unavailableSuppressed;
        return false;
      }
      var strikes := if address in unavailableStrikes then unavailableStrikes[address] else 1;
      var interval := RESET_INTERVAL * strikes as real;
      if now - unavailableSuppressed[address] > interval {
        unavailableSuppressed := unavailableSuppressed - {address};
        return false;
      }
      return true;
    }

    /** `_record_unavailable_strike`. */
    method RecordUnavailableStrike(address: nat, now: real)
      modifies this`unavailableStrikes, this`unavailableSuppressed
      ensures State().backoff == Strike(old(State()).backoff, address, now)
    {
      var strikes := (if address in unavailableStrikes then unavailableStrikes[address] else 0) + 1;
      unavailableStrikes := unavailableStrikes[address := strikes];
      if strikes >= STRIKES_THRESHOLD {
        unavailableSuppressed := unavailableSuppressed[address := now];
      }
    }

    /** `_apply_quality_filter`: sentinel, then non-finite, then range. */
    method ApplyQualityFilter(reg: Register, v: Value) returns (r: Option<Value>)
      modifies this`retainedQualityAddresses
      ensures (State().memo, r) == Filter(old(State()).memo, reg, v, policy)
    {
      var a := reg.address;
      assert retainedQualityAddresses - {a} + {a} == retainedQualityAddresses + {a};
      retainedQualityAddresses := retainedQualityAddresses - {a};
      if a == SENTINEL_ADDRESS && v.IntV? && v.i >= SENTINEL {
        r := KeepOrFail(a);
        return;
      }
      if IsNumber(v) {
        if !IsFinite(v) {
          r := KeepOrFail(a);
          return;
        }
        if a !in EXEMPT {
          var limit := AbsLimit(reg);
          var n := RealOf(v);
          var negativeEnergy := IsEnergyCounter(reg) && n < 0.0;
          if negativeEnergy || (if n < 0.0 then -n else n) > limit {
            assert limit >= 0.0;
            r := KeepOrFail(a);
            return;
          }
        }
      }
      return Some(v);
    }

    /** Substitute the last good value, or fail the read. */
    method KeepOrFail(address: nat) returns (r: Option<Value>)
      modifies this`retainedQualityAddresses
      ensures address in lastGoodValues && policy == KeepLast ==>
        r == Some(lastGoodValues[address]) && retainedQualityAddresses == old(retainedQualityAddresses) + {address}
      ensures !(address in lastGoodValues && policy == KeepLast) ==>
        r == None && retainedQualityAddresses == old(retainedQualityAddresses)
    {
      if address in lastGoodValues && policy == KeepLast {
        retainedQualityAddresses := retainedQualityAddresses + {address};
        return Some(lastGoodValues[address]);
      }
      return None;
    }

    /** Filter and remember one decoded value. */
    method AcceptValue(reg: Register, v: Value, gen: nat) returns (r: Option<Value>)
      modifies this`lastGoodValues, this`observationGenerations, this`retainedQualityAddresses
      ensures (State().memo, r) == Accept(old(State()).memo, reg, v, gen, policy)
    {
      r := ApplyQualityFilter(reg, v);
      if r.Some? {
        if reg.address !in retainedQualityAddresses {
          observationGenerations := observationGenerations[reg.address := gen];
        }
        lastGoodValues := lastGoodValues[reg.address := r.value];
      }
    }

    /** `read_register`, with the request's outcome after retries taken from the link. */
    method ReadRegister(reg: Register, link: Link) returns (v: Option<Value>, alive: bool)
      requires WellFormed(reg) && Uses(link)
      modifies this
      ensures (State(), v, alive) == BatchReader.ReadRegister(old(State()), reg, link)
    {
      var suppressed := IsSuppressed(reg.address, link.now);
      if suppressed {
        return None, true;
      }
      match RawRead(link.device, reg.address, reg.count) {
        case Bytes(raw) =>
          unavailableStrikes := unavailableStrikes - {reg.address};
          v := AcceptValue(reg, Decode(raw, reg, endianness), link.gen);
          alive := true;
        case IllegalAddress =>
          RecordUnavailableStrike(reg.address, link.now);
          v, alive := None, true;
        case ConnectionLost =>
          v, alive := None, false;
        case _ =>
          v, alive := None, true;
      }
    }

    /** The fallback loop, and the lone-register case: single reads, failed ones skipped. */
    method ReadEach(regs: seq<Register>, link: Link, values0: map<string, Value>)
      returns (values: map<string, Value>, alive: bool)
      requires AllWellFormed(regs) && Uses(link)
      modifies this
      ensures Outcome(State(), values, alive) == OneByOne(Outcome(old(State()), values0, true), regs, link)
    {
      values, alive := values0, true;
      ghost var o := Outcome(State(), values, true);
      var i := 0;
      while i < |regs| && alive
        invariant i <= |regs|
        invariant OneByOne(Outcome(State(), values, alive), regs[i..], link) == OneByOne(o, regs, link)
      {
        assert regs[i..][0] == regs[i] && regs[i..][1..] == regs[i + 1..];
        var v;
        v, alive := ReadRegister(regs[i], link);
        values := Put(values, regs[i].name, v);
        i := i + 1;
      }
    }

    /** One register of a group answer. */
    method SliceOne(reg: Register, bytes: seq<byte>, link: Link, values0: map<string, Value>)
      returns (values: map<string, Value>)
      requires WellFormed(reg) && |bytes| == 2 * reg.count && Uses(link)
      modifies this
      ensures Outcome(State(), values, true) == AcceptSlice(Outcome(old(State()), values0, true), reg, bytes, link)
    {
      values := values0;
      var v := AcceptValue(reg, Decode(bytes, reg, endianness), link.gen);
      if v.Some? {
        unavailableStrikes := unavailableStrikes - {reg.address};
        values := values[reg.name := v.value];
      }
    }

    /** Slice a group answer: each register takes its own words and advances the offset. */
    method SliceGroup(group: seq<Register>, raw: seq<byte>, link: Link, values0: map<string, Value>)
      returns (values: map<string, Value>)
      requires AllWellFormed(group) && |raw| == 2 * TotalCount(group) && Uses(link)
      modifies this
      ensures Outcome(State(), values, true) == AcceptSlices(Outcome(old(State()), values0, true), group, raw, link)
    {
      hide AcceptSlice;
      values := values0;
      ghost var o := Outcome(State(), values, true);
      var i: nat, offset: nat := 0, 0;
      while i < |group|
        invariant i <= |group| && 2 * offset <= |raw|
        invariant 2 * offset + 2 * TotalCount(group[i..]) == |raw|
        invariant AcceptSlices(Outcome(State(), values, true), group[i..], raw[2 * offset..], link)
               == AcceptSlices(o, group, raw, link)
      {
        var reg := group[i];
        SlicesUnfold(Outcome(State(), values, true), group, i, raw, offset, link);
        values := SliceOne(reg, raw[2 * offset..2 * (offset + reg.count)], link, values);
        offset := offset + reg.count;
        i := i + 1;
      }
    }

    /** The grouping pass of `read_registers_batch` over the sorted registers. */
    method FormGroups(sorted: seq<Register>, now: real) returns (groups: seq<seq<Register>>)
      modifies this`unavailableSuppressed
      ensures groups == Groups(Kept(old(State()).backoff, sorted, now))
      ensures State().backoff == ExpireAll(old(State()).backoff, sorted, now)
    {
      ghost var u := State().backoff;
      hide Suppressed, Expire, Scanned;
      groups := [];
      EmptyScan();
      var current: seq<Register> := [];
      var i := 0;
      while i < |sorted|
        invariant i <= |sorted|
        invariant State().backoff == ExpireAll(u, sorted[..i], now)
        invariant Scanned(groups, current, Kept(u, sorted[..i], now))
      {
        var reg := sorted[i];
        assert sorted[..i + 1] == sorted[..i] + [reg];
        KeptAppend(u, sorted[..i], reg, now);
        ExpireAllAppend(u, sorted[..i], reg, now);
        ExpireAllStatus(u, u, sorted[..i], now);
        ghost var kept := Kept(u, sorted[..i], now);
        var suppressed := IsSuppressed(reg.address, now);
        if !suppressed {
          ScanStep(groups, current, kept, reg);
          if current == [] {
            current := [reg];
          } else if Adjacent(current[|current| - 1], reg) {
            current := current + [reg];
          } else {
            groups, current := groups + [current], [reg];
          }
        }
        i := i + 1;
      }
      assert sorted[..i] == sorted;
      ScanEnd(groups, current, Kept(u, sorted, now));
      if current != [] {
        groups := groups + [current];
      }
    }

    /** `read_registers_batch`. */
    method ReadRegistersBatch(registers: seq<Register>, link: Link)
      returns (result: map<string, Value>, alive: bool)
      requires AllWellFormed(registers) && Uses(link)
      modifies this
      ensures Outcome(State(), result, alive) == Batch(old(State()), registers, link)
    {
      ghost var u := State().backoff;
      var sorted := SortByAddress(registers);
      var groups := FormGroups(sorted, link.now);
      GroupsSplit(Kept(u, sorted, link.now));
      GroupMembers(groups, Kept(u, sorted, link.now));
      result, alive := map[], true;
      ghost var o := Outcome(State(), result, true);
      var i := 0;
      while i < |groups| && alive
        invariant i <= |groups|
        invariant ReadableGroups(groups)
        invariant ReadGroups(Outcome(State(), result, alive), groups[i..], link) == ReadGroups(o, groups, link)
      {
        var group := groups[i];
        assert group in groups;
        assert groups[i..][0] == group && groups[i..][1..] == groups[i + 1..];
        var reply := RawRead(link.device, group[0].address, TotalCount(group));
        if |group| > 1 && reply.Bytes? {
          result := SliceGroup(group, reply.raw, link, result);
        } else {
          result, alive := ReadEach(group, link, result);
        }
        i := i + 1;
      }
    }
  }

  lemma SlicesUnfold(o: Outcome, group: seq<Register>, i: nat, raw: seq<byte>, offset: nat, link: Link)
    requires AllWellFormed(group) && i < |group|
    requires 2 * offset + 2 * TotalCount(group[i..]) == |raw|
    ensures WellFormed(group[i])
    ensures 2 * (offset + group[i].count) + 2 * TotalCount(group[i + 1..]) == |raw|
    ensures AcceptSlices(o, group[i..], raw[2 * offset..], link)
         == AcceptSlices(AcceptSlice(o, group[i], raw[2 * offset..2 * (offset + group[i].count)], link),
                         group[i + 1..], raw[2 * (offset + group[i].count)..], link)
  {
    var reg := group[i];
    assert group[i..][0] == reg && group[i..][1..] == group[i + 1..];
    assert raw[2 * offset..][..2 * reg.count] == raw[2 * offset..2 * (offset + reg.count)];
    assert raw[2 * offset..][2 * reg.count..] == raw[2 * (offset + reg.count)..];
  }

  /** The closed groups and the open one are the groups of the registers kept so far. */
  ghost predicate Scanned(groups: seq<seq<Register>>, current: seq<Register>, kept: seq<Register>) {
    if current == [] then kept == [] && groups == []
    else kept != [] && Groups(kept) == groups + [current] && current[|current| - 1] == kept[|kept| - 1]
  }

  lemma EmptyScan()
    ensures Scanned([], [], [])
  {}

  lemma ScanEnd(groups: seq<seq<Register>>, current: seq<Register>, kept: seq<Register>)
    requires Scanned(groups, current, kept)
    ensures Groups(kept) == if current == [] then groups else groups + [current]
  {}

  lemma ScanStep(groups: seq<seq<Register>>, current: seq<Register>, kept: seq<Register>, reg: Register)
    requires Scanned(groups, current, kept)
    ensures
      if current == [] then Scanned(groups, [reg], kept + [reg])
      else if Adjacent(current[|current| - 1], reg) then Scanned(groups, current + [reg], kept + [reg])
      else Scanned(groups + [current], [reg], kept + [reg])
  {
    assert (kept + [reg])[..|kept|] == kept;
    if current != [] {
      assert (groups + [current])[..|groups|] == groups;
    }
  }

  lemma {:induction false} KeptAppend(u: Backoff, regs: seq<Register>, reg: Register, now: real)
    ensures Kept(u, regs + [reg], now)
         == if Suppressed(u, reg.address, now) then Kept(u, regs, now) else Kept(u, regs, now) + [reg]
  {
    if regs != [] {
      assert (regs + [reg])[1..] == regs[1..] + [reg];
      KeptAppend(u, regs[1..], reg, now);
    }
  }

  lemma {:induction false} ExpireAllAppend(u: Backoff, regs: seq<Register>, reg: Register, now: real)
    ensures ExpireAll(u, regs + [reg], now) == Expire(ExpireAll(u, regs, now), reg.address, now)
    decreases |regs|
  {
    if regs == [] {
      assert ([] + [reg])[1..] == [];
    } else {
      assert (regs + [reg])[1..] == regs[1..] + [reg];
      ExpireAllAppend(Expire(u, regs[0].address, now), regs[1..], reg, now);
    }
  }
}
