/** The proxy's request handling (modbus_proxy.py): reads answered from the cache or the
    inverter, and the word-by-word record of writes the inverter has not confirmed. */
module ProxyServer {
  import opened Registers
  import opened RegisterCodec
  import opened ProxyImage

  const FC_READ_HOLDING: byte := 0x03
  const FC_READ_INPUT: byte := 0x04
  const FC_WRITE_SINGLE: byte := 0x06
  const FC_WRITE_MULTIPLE: byte := 0x10
  const READ_CODES: set<byte> := {FC_READ_HOLDING, FC_READ_INPUT}
  const WRITE_CODES: set<byte> := {FC_WRITE_SINGLE, FC_WRITE_MULTIPLE}
  const ILLEGAL_DATA_VALUE: byte := 0x03
  const SERVER_DEVICE_FAILURE: byte := 0x04
  const MAX_READ_FAILURES := 64

  /** What the client's raw read gave: no connection, an exception, or bytes. */
  datatype Upstream = Unavailable | Failed | Answer(raw: seq<byte>)

  predicate IsError(response: seq<byte>)
    requires response != []
  {
    response[0] >= 0x80
  }

  function ErrorResponse(fc: byte, code: byte): seq<byte> {
    [if fc < 0x80 then fc + 0x80 else fc, code]
  }

  function Start(pdu: seq<byte>): word
    requires |pdu| >= 3
  {
    UnpackWord(pdu[1], pdu[2])
  }

  function Quantity(pdu: seq<byte>): word
    requires |pdu| >= 5
  {
    UnpackWord(pdu[3], pdu[4])
  }

  predicate ValidRead(pdu: seq<byte>) {
    |pdu| >= 5 && 1 <= Quantity(pdu) <= 125
  }

  function SuccessHeader(pdu: seq<byte>): seq<byte>
    requires ValidRead(pdu)
  {
    [pdu[0], 2 * Quantity(pdu)]
  }

  /** A FLOAT32 register lying wholly inside the answered range holds NaN or infinity. */
  predicate NonFiniteAt(reg: Register, start: nat, quantity: nat, raw: seq<byte>, e: Endianness)
    requires |raw| == 2 * quantity
  {
    && reg.dtype == FLOAT32 && WellFormed(reg)
    && reg.address >= start && reg.address + reg.count <= start + quantity
    && var v := DecodeForWrite(raw[2 * (reg.address - start)..][..4], reg, e);
       v.FloatV? && !v.f.Finite()
  }

  /** The forwarded answer is relayed. */
  predicate Usable(table: seq<Register>, start: nat, quantity: nat, upstream: Upstream, e: Endianness) {
    && upstream.Answer? && |upstream.raw| == 2 * quantity
    && forall reg :: reg in table ==> !NonFiniteAt(reg, start, quantity, upstream.raw, e)
  }

  /** What a read request is answered with. */
  ghost predicate ReadAnswer(pdu: seq<byte>, table: seq<Register>, cache: Cache, e: Endianness,
                             upstream: Upstream, response: seq<byte>)
    requires pdu != []
  {
    if !ValidRead(pdu) then response == ErrorResponse(pdu[0], ILLEGAL_DATA_VALUE)
    else
      var start, quantity := Start(pdu), Quantity(pdu);
      if Hit(table, cache, e, start, quantity) then
        && |response| == 2 + 2 * quantity && response[..2] == SuccessHeader(pdu)
        && forall k :: 0 <= k < quantity ==>
             WordOf(response[2..], k) == CoveredWord(Server(table, cache, e, start, k).value, cache, e, start, k)
      else if Usable(table, start, quantity, upstream, e) then response == SuccessHeader(pdu) + upstream.raw
      else response == ErrorResponse(pdu[0], SERVER_DEVICE_FAILURE)
  }

  /** Whatever mixture of cache and device serves it, a successful read answer carries exactly
      the device's words, provided the cache holds observations of those words and no word is
      served by a BOOL or UINT8 register the codecs do not round-trip; the only other answers
      are the two exceptions, and 0x04 only where the cache cannot answer. */
  lemma ReadIsTransparent(pdu: seq<byte>, table: seq<Register>, cache: Cache, e: Endianness,
                          upstream: Upstream, response: seq<byte>, mem: Memory)
    requires pdu != [] && ReadAnswer(pdu, table, cache, e, upstream, response)
    requires Observed(table, cache, mem, e)
    requires ValidRead(pdu) ==>
      var start, quantity := Start(pdu), Quantity(pdu);
      && (upstream.Answer? ==> upstream.raw == ReadWords(mem, start, quantity))
      && (Hit(table, cache, e, start, quantity) ==>
            forall k :: 0 <= k < quantity ==> FaithfulAt(table, cache, mem, e, start, k))
    ensures !ValidRead(pdu) ==> response == ErrorResponse(pdu[0], ILLEGAL_DATA_VALUE)
    ensures ValidRead(pdu) ==>
      var direct := SuccessHeader(pdu) + ReadWords(mem, Start(pdu), Quantity(pdu));
      if Hit(table, cache, e, Start(pdu), Quantity(pdu)) || Usable(table, Start(pdu), Quantity(pdu), upstream, e)
      then response == direct
      else response == ErrorResponse(pdu[0], SERVER_DEVICE_FAILURE)
  {
    if ValidRead(pdu) && Hit(table, cache, e, Start(pdu), Quantity(pdu)) {
      HitIsTransparent(table, cache, mem, e, Start(pdu), Quantity(pdu), response[2..]);
      assert response == response[..2] + response[2..];
    }
  }

  /** The number two bytes of a request make, high byte first. */
  function TwoBytes(pdu: seq<byte>, k: nat): nat
    requires k + 2 <= |pdu|
  {
    pdu[k] as int * 256 + pdu[k + 1] as int
  }

  /** An exception response: the function code with its top bit set, and the code. */
  predicate Refuses(response: seq<byte>, fc: byte, code: int) {
    && |response| == 2
    && response[0] as int == (if fc < 128 then fc as int + 128 else fc as int)
    && response[1] as int == code
  }

  lemma WordsOnTheWire(mem: Memory, start: nat, n: nat, k: nat)
    requires k < n
    ensures
      var words := ReadWords(mem, start, n);
      words[2 * k] == mem(start + k) / 256 && words[2 * k + 1] == mem(start + k) % 256
  {
    var words := ReadWords(mem, start, n);
    assert WordOf(words, k) == PackWord(mem(start + k));
    assert WordOf(words, k)[0] == words[2 * k] && WordOf(words, k)[1] == words[2 * k + 1];
    hide ReadWords;
  }

  /** The same on the wire: the request's bytes name the function, the address and the number of
      words, each high byte first; a good answer repeats the function, counts its bytes and carries
      the device's words high byte first; any other is the function with its top bit set, and 3 for
      a malformed request or 4. */
  lemma ReadInBytes(pdu: seq<byte>, table: seq<Register>, cache: Cache, e: Endianness,
                    upstream: Upstream, response: seq<byte>, mem: Memory, start: nat, n: nat)
    requires |pdu| >= 5 && start == TwoBytes(pdu, 1) && n == TwoBytes(pdu, 3)
    requires ReadAnswer(pdu, table, cache, e, upstream, response) && Observed(table, cache, mem, e)
    requires 1 <= n <= 125 ==>
      && (upstream.Answer? ==> upstream.raw == ReadWords(mem, start, n))
      && (Hit(table, cache, e, start, n) ==>
            forall k :: 0 <= k < n ==> FaithfulAt(table, cache, mem, e, start, k))
    ensures
      if !(1 <= n <= 125) then Refuses(response, pdu[0], 3)
      else if Hit(table, cache, e, start, n) || Usable(table, start, n, upstream, e) then
        && |response| == 2 + 2 * n && response[0] == pdu[0] && response[1] == 2 * n
        && forall k :: 0 <= k < n ==>
             response[2 + 2 * k] == mem(start + k) / 256 && response[3 + 2 * k] == mem(start + k) % 256
      else Refuses(response, pdu[0], 4)
  {
    assert Start(pdu) == start && Quantity(pdu) == n;
    hide Hit, Usable, ReadAnswer, Observed, FaithfulAt, ReadWords, Start, Quantity;
    ReadIsTransparent(pdu, table, cache, e, upstream, response, mem);
    if ValidRead(pdu) && (Hit(table, cache, e, start, n) || Usable(table, start, n, upstream, e)) {
      forall k | 0 <= k < n
        ensures response[2 + 2 * k] == mem(start + k) / 256 && response[3 + 2 * k] == mem(start + k) % 256
      {
        WordsOnTheWire(mem, start, n, k);
      }
    }
  }

  /** A forwarded answer is relayed exactly if it has two bytes for every word and no FLOAT32 register
      lying wholly inside it has all its exponent bits set. */
  lemma UsableExactly(table: seq<Register>, start: nat, quantity: nat, upstream: Upstream, e: Endianness)
    ensures Usable(table, start, quantity, upstream, e) <==>
      && upstream.Answer? && |upstream.raw| == 2 * quantity
      && forall reg :: reg in table && reg.dtype == FLOAT32 && reg.count >= 2
                       && start <= reg.address && reg.address + reg.count <= start + quantity ==>
           var k := 2 * (reg.address - start) + if e == Big then 0 else 2;
           !(upstream.raw[k] % 128 == 127 && upstream.raw[k + 1] >= 128)
  {}

  // ---------- word-level write confirmation ----------

  /** A completed request of the proxy's own unit and the response it got. */
  datatype Exchange = Exchange(ownUnit: bool, pdu: seq<byte>, response: seq<byte>)

  function WordRange(start: nat, count: nat): (r: set<nat>)
    ensures forall a :: a in r <==> start <= a < start + count
  {
    if count == 0 then {} else WordRange(start, count - 1) + {start + count - 1}
  }

  /** The words a write request names; empty unless the range is a legal one. */
  function Affected(pdu: seq<byte>): set<nat> {
    if |pdu| < 5 || (pdu[0] != FC_WRITE_SINGLE && pdu[0] != FC_WRITE_MULTIPLE) then {}
    else
      var quantity := if pdu[0] == FC_WRITE_SINGLE then 1 else Quantity(pdu);
      if 1 <= quantity <= 123 && Start(pdu) + quantity <= 65536
      then WordRange(Start(pdu), quantity)
      else {}
  }

  /** The response settles the words: success clears them, Server Device Failure marks them. */
  predicate Unconfirmed(response: seq<byte>) {
    |response| >= 2 && IsError(response) && response[1] == SERVER_DEVICE_FAILURE
  }

  predicate Confirmed(response: seq<byte>) {
    response != [] && !IsError(response)
  }

  function PendingAfter(pending: set<nat>, x: Exchange): set<nat> {
    if !x.ownUnit then pending
    else if Unconfirmed(x.response) then pending + Affected(x.pdu)
    else if Confirmed(x.response) then pending - Affected(x.pdu)
    else pending
  }

  lemma OthersLeaveWrites(pending: set<nat>, x: Exchange)
    requires !x.ownUnit || |x.pdu| < 5 || x.pdu[0] !in WRITE_CODES
    ensures PendingAfter(pending, x) == pending
  {}

  function PendingAfterAll(log: seq<Exchange>): set<nat> {
    if log == [] then {} else PendingAfter(PendingAfterAll(log[..|log| - 1]), log[|log| - 1])
  }

  lemma PendingAfterOne(log: seq<Exchange>, x: Exchange)
    ensures PendingAfterAll(log + [x]) == PendingAfter(PendingAfterAll(log), x)
  {
    assert (log + [x])[..|log|] == log;
  }

  /** The exchange is the last word on address `a`, one way or the other. */
  predicate Decides(x: Exchange, a: nat) {
    x.ownUnit && a in Affected(x.pdu) && (Unconfirmed(x.response) || Confirmed(x.response))
  }

  /** Which exchange decides about which word: an own write of one word (6), or of 1 to 123 words
      inside the address space (16), that covers it and was answered well or with failure 4. */
  lemma DecidesExactly(x: Exchange, a: nat)
    ensures Decides(x, a) <==>
      && x.ownUnit && |x.pdu| >= 5 && x.response != []
      && (x.response[0] < 128 || (|x.response| >= 2 && x.response[1] == 4))
      && var start, n := TwoBytes(x.pdu, 1), if x.pdu[0] == 6 then 1 else TwoBytes(x.pdu, 3);
         && (x.pdu[0] == 6 || x.pdu[0] == 16)
         && 1 <= n <= 123 && start + n <= 65536 && start <= a < start + n
    ensures Decides(x, a) ==> (Unconfirmed(x.response) <==> x.response[0] >= 128)
  {}

  /** Over any history of exchanges, a word is pending exactly when the latest decisive response
      among the writes covering it was Server Device Failure. */
  lemma {:induction false} PendingIffLastDecisionFailed(log: seq<Exchange>, a: nat)
    ensures a in PendingAfterAll(log) <==>
      exists i :: 0 <= i < |log| && Decides(log[i], a) && Unconfirmed(log[i].response)
                  && forall j :: i < j < |log| ==> !Decides(log[j], a)
  {
    if log != [] {
      var n := |log| - 1;
      var front := log[..n];
      PendingIffLastDecisionFailed(front, a);
      if Decides(log[n], a) {
        if Unconfirmed(log[n].response) {
          assert Decides(log[n], a) && n == |log| - 1;
        }
      } else if a in PendingAfterAll(front) {
        var i :| 0 <= i < n && Decides(front[i], a) && Unconfirmed(front[i].response)
                 && forall j :: i < j < n ==> !Decides(front[j], a);
        assert Decides(log[i], a);
        forall j | i < j < |log| ensures !Decides(log[j], a) {
          if j < n { assert front[j] == log[j]; }
        }
      }
    }
  }

  /** The pending set is bounded by the Modbus address space. */
  lemma {:induction false} PendingIsBounded(log: seq<Exchange>)
    ensures forall a :: a in PendingAfterAll(log) ==> a < 65536
  {
    if log != [] {
      PendingIsBounded(log[..|log| - 1]);
    }
  }

  function ReadFailuresAfter(failures: set<(word, word)>, pdu: seq<byte>, response: seq<byte>): set<(word, word)>
    requires |pdu| == 5 && |response| >= 2
  {
    var key := (Start(pdu), Quantity(pdu));
    if !IsError(response) then failures
    else if response[1] != SERVER_DEVICE_FAILURE then failures - {key}
    else if |failures| < MAX_READ_FAILURES then failures + {key}
    else failures
  }

  /** A failed read (4) is remembered while there is room for 64, another error forgets it, and no
      other request is affected. */
  lemma ReadFailuresExactly(failures: set<(word, word)>, pdu: seq<byte>, response: seq<byte>, key: (word, word))
    requires |pdu| == 5 && |response| >= 2
    ensures
      var own := key.0 as int == TwoBytes(pdu, 1) && key.1 as int == TwoBytes(pdu, 3);
      key in ReadFailuresAfter(failures, pdu, response) <==>
        if own && response[0] >= 128 then response[1] == 4 && (key in failures || |failures| < 64)
        else key in failures
  {}

  class ProxyServer {
    const table: seq<Register>
    const endianness: Endianness
    const unitId: byte
    var readCount: nat
    var cacheHits: nat
    var forwardedReads: nat
    var failedRequests: nat
    var readFailures: set<(word, word)>
    var writeFailures: set<nat>
    var upstreamFailed: bool
    /** The exchanges recorded so far. */
    ghost var log: seq<Exchange>

    ghost predicate Valid()
      reads this
    {
      Sorted(table) && writeFailures == PendingAfterAll(log) && |readFailures| <= MAX_READ_FAILURES
    }

    constructor (table: seq<Register>, endianness: Endianness, unitId: byte)
      requires Sorted(table)
      ensures Valid() && this.table == table && this.endianness == endianness && this.unitId == unitId
      ensures writeFailures == {} && readFailures == {} && !upstreamFailed && log == []
    {
      this.table, this.endianness, this.unitId := table, endianness, unitId;
      readCount, cacheHits, forwardedReads, failedRequests := 0, 0, 0, 0;
      readFailures, writeFailures, upstreamFailed, log := {}, {}, false, [];
    }

    /** `_forward_read`: a validated answer proves the link works and clears every read failure. */
    method ForwardRead(start: nat, quantity: nat, upstream: Upstream) returns (r: Option<seq<byte>>)
      requires Valid()
      modifies this`forwardedReads, this`readFailures
      ensures Valid()
      ensures r == if Usable(table, start, quantity, upstream, endianness) then Some(upstream.raw) else None
      ensures r.Some? ==> readFailures == {} && forwardedReads == old(forwardedReads) + 1
      ensures r.None? ==> readFailures == old(readFailures) && forwardedReads == old(forwardedReads)
    {
      if !upstream.Answer? || |upstream.raw| != 2 * quantity {
        return None;
      }
      var i := 0;
      while i < |table|
        invariant i <= |table|
        invariant forall j :: 0 <= j < i ==> !NonFiniteAt(table[j], start, quantity, upstream.raw, endianness)
      {
        if NonFiniteAt(table[i], start, quantity, upstream.raw, endianness) {
          return None;
        }
        i := i + 1;
      }
      forwardedReads, readFailures := forwardedReads + 1, {};
      return Some(upstream.raw);
    }

    /** `_handle_read`. */
    method HandleRead(pdu: seq<byte>, cache: Cache, upstream: Upstream) returns (response: seq<byte>)
      requires Valid() && pdu != []
      modifies this`readCount, this`cacheHits, this`forwardedReads, this`readFailures
      ensures Valid()
      ensures ReadAnswer(pdu, table, cache, endianness, upstream, response)
      ensures readCount == old(readCount) + (if ValidRead(pdu) then 1 else 0)
      ensures ValidRead(pdu) ==>
        cacheHits == old(cacheHits) + (if Hit(table, cache, endianness, Start(pdu), Quantity(pdu)) then 1 else 0)
      ensures !ValidRead(pdu) ==> cacheHits == old(cacheHits)
      // a cache hit performs no device I/O and so proves nothing about the link
      ensures (!ValidRead(pdu) || Hit(table, cache, endianness, Start(pdu), Quantity(pdu))) ==>
        readFailures == old(readFailures) && forwardedReads == old(forwardedReads)
      // a miss is forwarded, and only a usable answer counts and settles the read failures
      ensures ValidRead(pdu) && !Hit(table, cache, endianness, Start(pdu), Quantity(pdu)) ==>
        if Usable(table, Start(pdu), Quantity(pdu), upstream, endianness)
        then readFailures == {} && forwardedReads == old(forwardedReads) + 1
        else readFailures == old(readFailures) && forwardedReads == old(forwardedReads)
    {
      if !ValidRead(pdu) {
        return ErrorResponse(pdu[0], ILLEGAL_DATA_VALUE);
      }
      var start, quantity := Start(pdu), Quantity(pdu);
      readCount := readCount + 1;
      var image := BuildRegisterImage(table, start, quantity, cache, endianness);
      if image.Some? {
        cacheHits := cacheHits + 1;
        response := SuccessHeader(pdu) + image.value;
        assert response[2..] == image.value;
        return;
      }
      var raw := ForwardRead(start, quantity, upstream);
      if raw.Some? {
        return SuccessHeader(pdu) + raw.value;
      }
      return ErrorResponse(pdu[0], SERVER_DEVICE_FAILURE);
    }

    /** A failed read is remembered until another answer settles it; at most 64 are. */
    method RecordRead(pdu: seq<byte>, response: seq<byte>)
      requires |pdu| == 5 && |response| >= 2 && |readFailures| <= MAX_READ_FAILURES
      modifies this`readFailures
      ensures readFailures == ReadFailuresAfter(old(readFailures), pdu, response)
      ensures |readFailures| <= MAX_READ_FAILURES
    {
      var key := (Start(pdu), Quantity(pdu));
      if IsError(response) && response[1] == SERVER_DEVICE_FAILURE {
        if |readFailures| < MAX_READ_FAILURES {
          readFailures := readFailures + {key};
        }
      } else if IsError(response) {
        readFailures := readFailures - {key};
      }
    }

    /** Every affected word is tracked by itself. */
    method RecordWrite(pdu: seq<byte>, response: seq<byte>)
      requires |pdu| >= 5 && |response| >= 2 && pdu[0] in WRITE_CODES
      modifies this`writeFailures
      ensures writeFailures == PendingAfter(old(writeFailures), Exchange(true, pdu, response))
    {
      var address, quantity := Start(pdu), if pdu[0] == FC_WRITE_SINGLE then 1 else Quantity(pdu);
      if 1 <= quantity <= 123 && address + quantity <= 65536 {
        var affected := WordRange(address, quantity);
        if IsError(response) && response[1] == SERVER_DEVICE_FAILURE {
          writeFailures := writeFailures + affected;
        } else if !IsError(response) {
          writeFailures := writeFailures - affected;
        }
      }
    }

    /** The bookkeeping `_process_pdu` does once a request has its response. */
    method RecordOutcome(pdu: seq<byte>, unit: byte, response: seq<byte>)
      requires Valid() && pdu != [] && |response| >= 2
      modifies this`failedRequests, this`readFailures, this`writeFailures, this`upstreamFailed, this`log
      ensures Valid()
      ensures log == old(log) + [Exchange(unit == unitId, pdu, response)]
      ensures failedRequests == old(failedRequests) + (if IsError(response) then 1 else 0)
      ensures readFailures == (if unit == unitId && pdu[0] in READ_CODES && |pdu| == 5
                               then ReadFailuresAfter(old(readFailures), pdu, response) else old(readFailures))
      ensures upstreamFailed == (if unit == unitId && pdu[0] in READ_CODES + WRITE_CODES
                                 then readFailures != {} else old(upstreamFailed))
    {
      hide PendingAfter, ReadFailuresAfter, Start, Quantity, Affected, TwoBytes, Sorted, PendingAfterAll;
      var fc := pdu[0];
      ghost var x := Exchange(unit == unitId, pdu, response);
      if unit != unitId || |pdu| < 5 || fc !in WRITE_CODES {
        OthersLeaveWrites(writeFailures, x);
      }
      if IsError(response) {
        failedRequests := failedRequests + 1;
      }
      if unit == unitId && fc in READ_CODES + WRITE_CODES {
        if fc in READ_CODES && |pdu| == 5 {
          RecordRead(pdu, response);
        }
        if fc in WRITE_CODES && |pdu| >= 5 {
          RecordWrite(pdu, response);
        }
        upstreamFailed := readFailures != {};
      }
      log := log + [x];
      PendingAfterOne(old(log), x);
    }
  }
}
