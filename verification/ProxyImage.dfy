/** Answering an external read from the poll cache (modbus_proxy.py): the sorted scan that
    assembles an image, and its agreement with reading the inverter directly. */
module ProxyImage {
  import opened Registers
  import opened RegisterCodec

  /** Register name to cached observation. */
  type Cache = map<string, Value>

  /** The register map sorted by address; overlaps are allowed. */
  predicate Sorted(table: seq<Register>) {
    forall i, j :: 0 <= i < j < |table| ==> table[i].address <= table[j].address
  }

  function CachedBytes(reg: Register, cache: Cache, e: Endianness): Option<seq<byte>> {
    if reg.name in cache then EncodeValue(cache[reg.name], reg, e) else None
  }

  /** The register's cached encoding has both bytes of the word at `start + k`. */
  predicate Covers(reg: Register, cache: Cache, e: Endianness, start: nat, k: nat) {
    && reg.address <= start + k < reg.address + reg.count
    && var raw := CachedBytes(reg, cache, e);
       raw.Some? && 2 * (start + k - reg.address) + 2 <= |raw.value|
  }

  function CoveredWord(reg: Register, cache: Cache, e: Endianness, start: nat, k: nat): seq<byte>
    requires Covers(reg, cache, e, start, k)
  {
    WordOf(CachedBytes(reg, cache, e).value, start + k - reg.address)
  }

  /** Reference: of ALL registers covering the word at `start + k`, the last in table order. */
  function Server(table: seq<Register>, cache: Cache, e: Endianness, start: nat, k: nat): (r: Option<Register>)
    ensures r.Some? ==> r.value in table && Covers(r.value, cache, e, start, k)
    ensures r.None? <==> forall reg :: reg in table ==> !Covers(reg, cache, e, start, k)
  {
    if table == [] then None
    else
      var last := table[|table| - 1];
      assert forall reg :: reg in table ==> reg == last || reg in table[..|table| - 1];
      if Covers(last, cache, e, start, k) then Some(last)
      else Server(table[..|table| - 1], cache, e, start, k)
  }

  /** What the two bytearrays hold for word k once `done` has been scanned. */
  ghost predicate WordDone(image: seq<byte>, covered: seq<bool>, k: nat, done: seq<Register>,
                           cache: Cache, e: Endianness, start: nat)
    requires k < |covered| && |image| == 2 * |covered|
  {
    var s := Server(done, cache, e, start, k);
    && (covered[k] <==> s.Some?)
    && (s.Some? ==> WordOf(image, k) == CoveredWord(s.value, cache, e, start, k))
  }

  ghost predicate ScanDone(image: seq<byte>, covered: seq<bool>, done: seq<Register>,
                           cache: Cache, e: Endianness, start: nat)
    requires |image| == 2 * |covered|
  {
    forall k :: 0 <= k < |covered| ==> WordDone(image, covered, k, done, cache, e, start)
  }

  lemma ServerExtend(done: seq<Register>, reg: Register, cache: Cache, e: Endianness, start: nat, k: nat)
    ensures Server(done + [reg], cache, e, start, k)
         == if Covers(reg, cache, e, start, k) then Some(reg) else Server(done, cache, e, start, k)
  {
    assert (done + [reg])[..|done|] == done;
  }

  /** The early exit: registers past the end of the range serve none of its words. */
  lemma ServerOfPrefix(table: seq<Register>, n: nat, cache: Cache, e: Endianness, start: nat, k: nat)
    requires n <= |table|
    requires forall i :: n <= i < |table| ==> !Covers(table[i], cache, e, start, k)
    ensures Server(table, cache, e, start, k) == Server(table[..n], cache, e, start, k)
    decreases |table|
  {
    if n < |table| {
      var front := table[..|table| - 1];
      assert front[..n] == table[..n];
      ServerOfPrefix(front, n, cache, e, start, k);
    } else {
      assert table[..n] == table;
    }
  }

  lemma SkipRegister(image: seq<byte>, covered: seq<bool>, done: seq<Register>, reg: Register,
                     cache: Cache, e: Endianness, start: nat)
    requires |image| == 2 * |covered| && ScanDone(image, covered, done, cache, e, start)
    requires forall k :: 0 <= k < |covered| ==> !Covers(reg, cache, e, start, k)
    ensures ScanDone(image, covered, done + [reg], cache, e, start)
  {
    forall k | 0 <= k < |covered|
      ensures WordDone(image, covered, k, done + [reg], cache, e, start)
    {
      ServerExtend(done, reg, cache, e, start, k);
      assert WordDone(image, covered, k, done, cache, e, start);
    }
  }

  /** The inner loop of the scan: copy the words of one register that fall into the range. */
  method CopyRegister(image: array<byte>, covered: array<bool>, start: nat, reg: Register, raw: seq<byte>,
                      ghost done: seq<Register>, cache: Cache, e: Endianness)
    requires image.Length == 2 * covered.Length
    requires CachedBytes(reg, cache, e) == Some(raw)
    requires ScanDone(image[..], covered[..], done, cache, e, start)
    modifies image, covered
    ensures ScanDone(image[..], covered[..], done + [reg], cache, e, start)
  {
    ghost var image0, covered0 := image[..], covered[..];
    for i := 0 to reg.count
      invariant forall k :: 0 <= k < covered.Length ==>
        if start + k < reg.address + i && Covers(reg, cache, e, start, k)
        then covered[k] && WordOf(image[..], k) == CoveredWord(reg, cache, e, start, k)
        else covered[k] == covered0[k] && WordOf(image[..], k) == WordOf(image0, k)
    {
      var addr := reg.address + i;
      if start <= addr < start + covered.Length && 2 * i + 2 <= |raw| {
        var k := addr - start;
        image[2 * k], image[2 * k + 1] := raw[2 * i], raw[2 * i + 1];
        covered[k] := true;
      }
    }
    forall k | 0 <= k < covered.Length
      ensures WordDone(image[..], covered[..], k, done + [reg], cache, e, start)
    {
      ServerExtend(done, reg, cache, e, start, k);
      assert WordDone(image0, covered0, k, done, cache, e, start);
    }
  }

  /** Every word of the range has a server: the cache can answer the read. */
  ghost predicate Hit(table: seq<Register>, cache: Cache, e: Endianness, start: nat, quantity: nat) {
    quantity > 0 && forall k :: 0 <= k < quantity ==> Server(table, cache, e, start, k).Some?
  }

  /** `_build_register_image`: an answer exactly when the range is not empty and every word has
      a server in the WHOLE table, and then each word is the one its server encodes. */
  method BuildRegisterImage(table: seq<Register>, start: nat, quantity: nat, cache: Cache, e: Endianness)
    returns (r: Option<seq<byte>>)
    requires Sorted(table)
    ensures r.Some? <==> Hit(table, cache, e, start, quantity)
    ensures r.Some? ==> |r.value| == 2 * quantity
    ensures r.Some? ==> forall k :: 0 <= k < quantity ==>
      WordOf(r.value, k) == CoveredWord(Server(table, cache, e, start, k).value, cache, e, start, k)
  {
    var image := new byte[2 * quantity](_ => 0);
    var covered := new bool[quantity](_ => false);
    var n := 0;
    while n < |table|
      invariant n <= |table|
      invariant ScanDone(image[..], covered[..], table[..n], cache, e, start)
    {
      var reg := table[n];
      assert table[..n + 1] == table[..n] + [reg];
      if reg.address >= start + quantity {
        break;
      }
      var raw := CachedBytes(reg, cache, e);
      if reg.address + reg.count <= start || raw.None? {
        SkipRegister(image[..], covered[..], table[..n], reg, cache, e, start);
      } else {
        CopyRegister(image, covered, start, reg, raw.value, table[..n], cache, e);
      }
      n := n + 1;
    }
    FinishScan(image[..], covered[..], table, n, cache, e, start);
    var any, all := Coverage(covered);
    assert quantity > 0 ==> covered[..][0] == covered[0];
    if !any || !all {
      return None;
    }
    return Some(image[..]);
  }

  /** `any(covered)` and `all(covered)`. */
  method Coverage(covered: array<bool>) returns (any: bool, all: bool)
    ensures any <==> exists k :: 0 <= k < covered.Length && covered[..][k]
    ensures all <==> forall k :: 0 <= k < covered.Length ==> covered[..][k]
  {
    any, all := false, true;
    for i := 0 to covered.Length
      invariant any <==> exists k :: 0 <= k < i && covered[..][k]
      invariant all <==> forall k :: 0 <= k < i ==> covered[..][k]
    {
      any := any || covered[i];
      all := all && covered[i];
    }
  }

  /** After the loop, whether it ran out or broke off, the whole table has been accounted for. */
  lemma FinishScan(image: seq<byte>, covered: seq<bool>, table: seq<Register>, n: nat,
                   cache: Cache, e: Endianness, start: nat)
    requires n <= |table| && |image| == 2 * |covered| && ScanDone(image, covered, table[..n], cache, e, start)
    requires forall i, k :: n <= i < |table| && 0 <= k < |covered| ==> !Covers(table[i], cache, e, start, k)
    ensures (|covered| > 0 && forall k :: 0 <= k < |covered| ==> covered[k])
            <==> Hit(table, cache, e, start, |covered|)
    ensures forall k :: 0 <= k < |covered| && covered[k] ==>
      var s := Server(table, cache, e, start, k);
      s.Some? && WordOf(image, k) == CoveredWord(s.value, cache, e, start, k)
  {
    forall k | 0 <= k < |covered|
      ensures covered[k] <==> Server(table, cache, e, start, k).Some?
      ensures covered[k] ==>
        WordOf(image, k) == CoveredWord(Server(table, cache, e, start, k).value, cache, e, start, k)
    {
      ServerOfPrefix(table, n, cache, e, start, k);
      assert WordDone(image, covered, k, table[..n], cache, e, start);
    }
  }

  // ---------- agreement with the device ----------

  /** Every cached value is what the client decodes from the device's present words. */
  ghost predicate Observed(table: seq<Register>, cache: Cache, mem: Memory, e: Endianness) {
    forall reg :: reg in table && reg.name in cache ==>
      WellFormed(reg) && reg.dtype != STRING && cache[reg.name] == Decode(RegisterBytes(mem, reg), reg, e)
  }

  /** The word is served by a register whose present device words re-encode exactly. */
  ghost predicate FaithfulAt(table: seq<Register>, cache: Cache, mem: Memory, e: Endianness, start: nat, k: nat) {
    var s := Server(table, cache, e, start, k);
    s.Some? && WellFormed(s.value) && s.value.dtype != STRING
    && Faithful(RegisterBytes(mem, s.value), s.value.dtype)
  }

  /** The register has an observation and the word at this address is among those its value fills;
      an observed infinity or NaN is not served. */
  predicate CanServe(reg: Register, cache: Cache, address: nat) {
    && reg.name in cache && reg.address <= address < reg.address + WordsNeeded(reg.dtype)
    && (cache[reg.name].FloatV? ==> cache[reg.name].f.Finite())
  }

  lemma CoversExactly(table: seq<Register>, cache: Cache, mem: Memory, e: Endianness, start: nat, k: nat, reg: Register)
    requires Observed(table, cache, mem, e) && reg in table
    ensures Covers(reg, cache, e, start, k) <==> CanServe(reg, cache, start + k)
  {
    if reg.name in cache {
      EncodeInvertsDecode(RegisterBytes(mem, reg), reg, e);
    }
    hide Decode, EncodeValue, Faithful;
  }

  ghost predicate Servable(table: seq<Register>, cache: Cache, address: nat) {
    exists reg :: reg in table && CanServe(reg, cache, address)
  }

  lemma ServerExactly(table: seq<Register>, cache: Cache, mem: Memory, e: Endianness, start: nat, k: nat)
    requires Observed(table, cache, mem, e)
    ensures Server(table, cache, e, start, k).Some? <==> Servable(table, cache, start + k)
  {
    hide Covers, CanServe, Observed;
    forall reg | reg in table ensures Covers(reg, cache, e, start, k) <==> CanServe(reg, cache, start + k) {
      CoversExactly(table, cache, mem, e, start, k, reg);
    }
    hide Server;
  }

  /** When the cache answers: every word of the range can be served by some register of the table. */
  lemma HitExactly(table: seq<Register>, cache: Cache, mem: Memory, e: Endianness, start: nat, quantity: nat)
    requires Observed(table, cache, mem, e)
    ensures Hit(table, cache, e, start, quantity) <==>
      quantity > 0 && forall a :: start <= a < start + quantity ==> Servable(table, cache, a)
  {
    hide Server, Servable, Observed;
    forall k: nat | k < quantity
      ensures Server(table, cache, e, start, k).Some? <==> Servable(table, cache, start + k)
    {
      ServerExactly(table, cache, mem, e, start, k);
    }
    if Hit(table, cache, e, start, quantity) {
      forall a | start <= a < start + quantity ensures Servable(table, cache, a) {
        assert Server(table, cache, e, start, a - start).Some?;
      }
    }
  }

  /** And where a word comes from: the last register of the table that can serve it. */
  lemma LastServes(table: seq<Register>, cache: Cache, mem: Memory, e: Endianness, start: nat, k: nat, i: nat)
    requires Observed(table, cache, mem, e) && i < |table| && CanServe(table[i], cache, start + k)
    requires forall j :: i < j < |table| ==> !CanServe(table[j], cache, start + k)
    ensures Server(table, cache, e, start, k) == Some(table[i])
  {
    hide Covers, CanServe, Observed;
    forall j | i <= j < |table| ensures Covers(table[j], cache, e, start, k) <==> i == j {
      CoversExactly(table, cache, mem, e, start, k, table[j]);
    }
    ServerOfPrefix(table, i + 1, cache, e, start, k);
    assert table[..i + 1][..i] == table[..i];
  }

  lemma WordOfPrefix(bytes: seq<byte>, raw: seq<byte>, w: nat, i: nat)
    requires |bytes| == 2 * w <= |raw| && i < w
    requires w > 1 ==> bytes == raw[..2 * w]
    ensures WordOf(bytes, i) == WordOf(raw, i) <==> bytes == raw[..2 * w]
  {
    if w == 1 {
      assert bytes == WordOf(bytes, 0) && raw[..2] == WordOf(raw, 0);
    }
  }

  lemma ServedWord(table: seq<Register>, cache: Cache, mem: Memory, e: Endianness, start: nat, k: nat)
    requires Observed(table, cache, mem, e)
    requires Server(table, cache, e, start, k).Some?
    ensures
      var reg := Server(table, cache, e, start, k).value;
      && WellFormed(reg) && reg.dtype != STRING
      && (CoveredWord(reg, cache, e, start, k) == PackWord(mem(start + k))
          <==> Faithful(RegisterBytes(mem, reg), reg.dtype))
  {
    var reg := Server(table, cache, e, start, k).value;
    hide Decode, EncodeValue, Faithful, Server;
    var raw := RegisterBytes(mem, reg);
    var i := start + k - reg.address;
    EncodeInvertsDecode(raw, reg, e);
    assert WordOf(raw, i) == PackWord(mem(reg.address + i));
    WordOfPrefix(CachedBytes(reg, cache, e).value, raw, WordsNeeded(reg.dtype), i);
  }

  /** Cache transparency, with its exact condition: an image assembled from observed values is
      word for word what the device holds if and only if no word of the range is served by a
      BOOL or UINT8 register whose word the codecs do not round-trip. */
  lemma HitIsTransparent(table: seq<Register>, cache: Cache, mem: Memory, e: Endianness,
                         start: nat, quantity: nat, image: seq<byte>)
    requires Observed(table, cache, mem, e) && Hit(table, cache, e, start, quantity)
    requires |image| == 2 * quantity
    requires forall k :: 0 <= k < quantity ==>
      WordOf(image, k) == CoveredWord(Server(table, cache, e, start, k).value, cache, e, start, k)
    ensures image == ReadWords(mem, start, quantity) 
         <==> forall k :: 0 <= k < quantity ==> FaithfulAt(table, cache, mem, e, start, k)
  {
    var direct := ReadWords(mem, start, quantity);
    forall k | 0 <= k < quantity
      ensures WordOf(image, k) == WordOf(direct, k) <==> FaithfulAt(table, cache, mem, e, start, k)
    {
      ServedWord(table, cache, mem, e, start, k);
    }
    SameWords(image, direct, quantity);
  }

  const MANAGEMENT_MODE := Register(1080, "battery_mgmt_mode", UINT8, 1, RO, BATTERY, false)

  /** Where it fails: a UINT8 register whose word is not zero. The client decodes the first byte
      of the word, and the image carries that value in the second. */
  lemma NarrowWordIsNotServed(w: word, e: Endianness)
    requires w != 0
    ensures
      var table, mem := [MANAGEMENT_MODE], (a: nat) => w;
      var cache: Cache := map["battery_mgmt_mode" := Decode(PackWord(w), MANAGEMENT_MODE, e)];
      && Observed(table, cache, mem, e) && Hit(table, cache, e, 1080, 1)
      && CoveredWord(Server(table, cache, e, 1080, 0).value, cache, e, 1080, 0) == [0, w / 256] != PackWord(w)
  {
    var mem := (a: nat) => w;
    var raw := RegisterBytes(mem, MANAGEMENT_MODE);
    assert WordOf(raw, 0) == PackWord(w) && raw == [raw[0], raw[1]];
    assert raw == PackWord(w);
    SplitWord(0, raw[0]);
  }

  lemma SameWords(a: seq<byte>, b: seq<byte>, n: nat)
    requires |a| == |b| == 2 * n
    ensures a == b <==> forall k :: 0 <= k < n ==> WordOf(a, k) == WordOf(b, k)
  {
    if forall k :: 0 <= k < n ==> WordOf(a, k) == WordOf(b, k) {
      forall j | 0 <= j < |a| ensures a[j] == b[j] {
        assert WordOf(a, j / 2)[j % 2] == WordOf(b, j / 2)[j % 2];
        assert j == 2 * (j / 2) + j % 2;
      }
    }
  }
}
