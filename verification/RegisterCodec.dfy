/** The two codecs that must agree: the client decodes inverter bytes (modbus_client.py),
    the proxy encodes the cached value again for its own clients (modbus_proxy.py). */
module RegisterCodec {
  import opened Registers

  /** Integer registers from this address on ignore the byte_order setting. */
  const VENDOR_REGISTER_BASE := 500

  predicate BigWordOrder(reg: Register, e: Endianness) {
    reg.address >= VENDOR_REGISTER_BASE || e == Big
  }

  // ---------- the client's decoder ----------

  /** Tab, line feed, vertical tab, form feed, return, the four separators, space, and the two
      spaces of Latin-1. */
  predicate IsSpace(c: byte) {
    9 <= c <= 13 || 28 <= c <= 32 || c == 133 || c == 160
  }

  function StripRight(s: seq<byte>, drop: byte -> bool): seq<byte> {
    if s != [] && drop(s[|s| - 1]) then StripRight(s[..|s| - 1], drop) else s
  }

  function StripLeft(s: seq<byte>, drop: byte -> bool): seq<byte> {
    if s != [] && drop(s[0]) then StripLeft(s[1..], drop) else s
  }

  function DecodeText(raw: seq<byte>): seq<byte> {
    StripLeft(StripRight(StripRight(raw, (c: byte) => c == 0), (c: byte) => IsSpace(c)), (c: byte) => IsSpace(c))
  }

  function Unsigned32(hi: word, lo: word): int { hi * 0x1_0000 + lo }

  function Signed16(v: int): int { if v >= 0x8000 then v - 0x1_0000 else v }

  function Signed32(v: int): int { if v >= 0x8000_0000 then v - 0x1_0000_0000 else v }

  /** Two's complement of a value that fits the width. */
  function Wrap(v: int, modulus: int): int { if v < 0 then v + modulus else v }

  /** `_decode`: the Python value of the bytes of one register. */
  function Decode(raw: seq<byte>, reg: Register, e: Endianness): Value
    requires |raw| >= 2 * WordsNeeded(reg.dtype)
  {
    match reg.dtype
    case UINT16 => IntV(UnpackWord(raw[0], raw[1]))
    case SINT16 =>
      IntV(Signed16(UnpackWord(raw[0], raw[1])))
    case UINT32 =>
      var first, second := UnpackWord(raw[0], raw[1]), UnpackWord(raw[2], raw[3]);
      IntV(if BigWordOrder(reg, e) then Unsigned32(first, second) else Unsigned32(second, first))
    case SINT32 =>
      var first, second := UnpackWord(raw[0], raw[1]), UnpackWord(raw[2], raw[3]);
      IntV(Signed32(if BigWordOrder(reg, e) then Unsigned32(first, second) else Unsigned32(second, first)))
    case FLOAT32 =>
      FloatV(if e == Big then Float32(raw[0], raw[1], raw[2], raw[3])
             else Float32(raw[2], raw[3], raw[0], raw[1]))
    case STRING => TextV(DecodeText(raw))
    case BOOL => BoolV(UnpackWord(raw[0], raw[1]) != 0)
    case UINT8 => IntV(raw[0])
  }

  // ---------- the numbers decoded ----------

  /** The number the bytes are the base-256 digits of, most significant first. */
  function Base256(digits: seq<byte>): nat {
    if digits == [] then 0 else 256 * Base256(digits[..|digits| - 1]) + digits[|digits| - 1]
  }

  lemma Base256Of(a: byte, b: byte, c: byte, d: byte)
    ensures Base256([a, b]) == 256 * a + b
    ensures Base256([a, b, c, d]) == 256 * (256 * (256 * a + b) + c) + d
  {
    assert [a, b][..1] == [a] && [a][..0] == [];
    assert Base256([a]) == a && Base256([a, b]) == 256 * a + b;
    assert [a, b, c, d][..3] == [a, b, c] && [a, b, c][..2] == [a, b];
    assert Base256([a, b, c]) == 256 * Base256([a, b]) + c;
  }

  /** The one number congruent to `v` that a signed width holds. */
  ghost predicate SignedOf(i: int, v: nat, modulus: int)
    requires modulus > 0
  {
    -modulus <= 2 * i < modulus && (i - v) % modulus == 0
  }

  /** The bytes of a 32-bit register, most significant first: the registers of the vendor's own
      range always come that way, those below it with the low word first unless the setting is big. */
  function InOrder(raw: seq<byte>, lowWordFirst: bool): seq<byte>
    requires |raw| >= 4
  {
    if lowWordFirst then raw[2..4] + raw[..2] else raw[..4]
  }

  lemma SignedIs(i: int, v: nat, modulus: int)
    requires modulus > 0 && (i == v || i == v - modulus) && -modulus <= 2 * i < modulus
    ensures SignedOf(i, v, modulus)
  {
    if i == v - modulus {
      assert i - v == -1 * modulus + 0;
    }
  }

  lemma DecodesWide(raw: seq<byte>, reg: Register, e: Endianness)
    requires |raw| >= 4 && reg.dtype in {UINT32, SINT32}
    ensures
      var v, n := Decode(raw, reg, e), Base256(InOrder(raw, reg.address < 500 && e == Little));
      && v.IntV? && n < 0x1_0000_0000
      && (reg.dtype == UINT32 ==> v.i == n)
      && (reg.dtype == SINT32 ==> SignedOf(v.i, n, 0x1_0000_0000))
  {
    var a, b, c, d := raw[0], raw[1], raw[2], raw[3];
    Base256Of(a, b, c, d);
    Base256Of(c, d, a, b);
    assert raw[..4] == [a, b, c, d] && raw[2..4] + raw[..2] == [c, d, a, b];
    hide Base256, SignedOf;
    if reg.dtype == SINT32 {
      SignedIs(Decode(raw, reg, e).i, Base256(InOrder(raw, reg.address < 500 && e == Little)), 0x1_0000_0000);
    }
  }

  lemma DecodesNarrow(raw: seq<byte>, reg: Register, e: Endianness)
    requires |raw| >= 2 && reg.dtype in {UINT16, SINT16}
    ensures
      var v, n := Decode(raw, reg, e), Base256(raw[..2]);
      && v.IntV? && n < 0x1_0000
      && (reg.dtype == UINT16 ==> v.i == n)
      && (reg.dtype == SINT16 ==> SignedOf(v.i, n, 0x1_0000))
  {
    Base256Of(raw[0], raw[1], 0, 0);
    assert raw[..2] == [raw[0], raw[1]];
    hide Base256, SignedOf;
    if reg.dtype == SINT16 {
      SignedIs(Decode(raw, reg, e).i, Base256(raw[..2]), 0x1_0000);
    }
  }

  ghost predicate Blank(s: seq<byte>) { forall k :: 0 <= k < |s| ==> IsSpace(s[k]) }

  ghost predicate Zeros(s: seq<byte>) { forall k :: 0 <= k < |s| ==> s[k] == 0 }

  /** `raw` is the text between white space, and NULs at the very end. */
  ghost predicate Frames(raw: seq<byte>, lead: seq<byte>, text: seq<byte>, tail: seq<byte>, nuls: seq<byte>) {
    && raw == lead + text + tail + nuls && Blank(lead) && Blank(tail) && Zeros(nuls)
    && (text != [] ==> !IsSpace(text[0]) && !IsSpace(text[|text| - 1]))
    && (lead + text + tail != [] ==> (lead + text + tail)[|lead + text + tail| - 1] != 0)
  }

  lemma {:induction false} StripsRight(s: seq<byte>, drop: byte -> bool) returns (rest: seq<byte>)
    ensures s == StripRight(s, drop) + rest && forall k :: 0 <= k < |rest| ==> drop(rest[k])
    ensures var r := StripRight(s, drop); r != [] ==> !drop(r[|r| - 1])
  {
    if s != [] && drop(s[|s| - 1]) {
      var front := StripsRight(s[..|s| - 1], drop);
      rest := front + [s[|s| - 1]];
    } else {
      rest := [];
    }
  }

  lemma {:induction false} StripsLeft(s: seq<byte>, drop: byte -> bool) returns (rest: seq<byte>)
    ensures s == rest + StripLeft(s, drop) && forall k :: 0 <= k < |rest| ==> drop(rest[k])
    ensures var r := StripLeft(s, drop); r != [] ==> !drop(r[0]) && r[|r| - 1] == s[|s| - 1]
  {
    if s != [] && drop(s[0]) {
      var back := StripsLeft(s[1..], drop);
      rest := [s[0]] + back;
    } else {
      rest := [];
    }
  }

  lemma DecodesTheText(raw: seq<byte>)
    ensures exists lead, tail, nuls :: Frames(raw, lead, DecodeText(raw), tail, nuls)
  {
    var isNul, isSpace := (c: byte) => c == 0, (c: byte) => IsSpace(c);
    var nuls := StripsRight(raw, isNul);
    var whole := StripRight(raw, isNul);
    var tail := StripsRight(whole, isSpace);
    var right := StripRight(whole, isSpace);
    var lead := StripsLeft(right, isSpace);
    var text := StripLeft(right, isSpace);
    assert text == DecodeText(raw);
    assert whole == lead + text + tail;
    assert Frames(raw, lead, text, tail, nuls);
  }

  /** What number, flag, pattern or text each type decodes into. */
  lemma DecodesTheNumber(raw: seq<byte>, reg: Register, e: Endianness)
    requires |raw| >= 2 * WordsNeeded(reg.dtype)
    ensures
      var v := Decode(raw, reg, e);
      var swapped := reg.address < 500 && e == Little;
      match reg.dtype
      case UINT16 => v == IntV(Base256(raw[..2]))
      case SINT16 => v.IntV? && SignedOf(v.i, Base256(raw[..2]), 0x1_0000)
      case UINT32 => v == IntV(Base256(InOrder(raw, swapped)))
      case SINT32 => v.IntV? && SignedOf(v.i, Base256(InOrder(raw, swapped)), 0x1_0000_0000)
      case FLOAT32 => v.FloatV? && [v.f.b0, v.f.b1, v.f.b2, v.f.b3] == InOrder(raw, e == Little)
      case BOOL => v == BoolV(raw[..2] != [0, 0])
      case UINT8 => v == IntV(raw[0])
      case STRING => v.TextV? && exists lead, tail, nuls :: Frames(raw, lead, v.text, tail, nuls)
  {
    hide Base256, SignedOf;
    match reg.dtype
    case UINT32 | SINT32 => DecodesWide(raw, reg, e);
    case UINT16 | SINT16 => DecodesNarrow(raw, reg, e);
    case STRING => DecodesTheText(raw);
    case FLOAT32 => assert raw[2..4] + raw[..2] == [raw[2], raw[3], raw[0], raw[1]];
    case _ => assert raw[..2] == [raw[0], raw[1]];
  }

  // ---------- the proxy's encoder ----------

  function Pack32(v: int): (r: seq<byte>)
    requires 0 <= v < 0x1_0000_0000
    ensures |r| == 4
  {
    PackWord(v / 0x1_0000) + PackWord(v % 0x1_0000)
  }

  /** Low word first, both masked to 16 bits, so no value is out of range. */
  function PackSwapped(v: int): (r: seq<byte>)
    ensures |r| == 4
  {
    PackWord(v % 0x1_0000) + PackWord((v / 0x1_0000) % 0x1_0000)
  }

  function PaddedText(s: seq<byte>, size: nat): (r: seq<byte>)
    ensures |r| == size
  {
    if |s| >= size then s[..size] else s + seq(size - |s|, i => 0)
  }

  /** `_encode_value`: None where the proxy raises and its caller skips the register.
      A value of a type the client never decodes this register into is None as well. */
  function EncodeValue(v: Value, reg: Register, e: Endianness): Option<seq<byte>> {
    match reg.dtype
    case UINT16 | UINT8 => if v.IntV? && 0 <= v.i < 0x1_0000 then Some(PackWord(v.i)) else None
    case SINT16 => if v.IntV? && -0x8000 <= v.i < 0x8000 then Some(PackWord(Wrap(v.i, 0x1_0000))) else None
    case UINT32 =>
      if !v.IntV? then None
      else if !BigWordOrder(reg, e) then Some(PackSwapped(v.i))
      else if 0 <= v.i < 0x1_0000_0000 then Some(Pack32(v.i)) else None
    case SINT32 =>
      if !v.IntV? then None
      else if !BigWordOrder(reg, e) then Some(PackSwapped(Wrap(v.i, 0x1_0000_0000)))
      else if -0x8000_0000 <= v.i < 0x8000_0000 then Some(Pack32(Wrap(v.i, 0x1_0000_0000))) else None
    case FLOAT32 => if v.FloatV? && v.f.Finite() then Some(EncodeFloat(v.f, e)) else None
    case STRING => if v.TextV? then Some(PaddedText(v.text, 2 * reg.count)) else None
    case BOOL => if v.BoolV? then Some(PackWord(if v.b then 1 else 0)) else None
  }

  function EncodeFloat(f: Float32, e: Endianness): seq<byte> {
    if e == Big then [f.b0, f.b1, f.b2, f.b3] else [f.b2, f.b3, f.b0, f.b1]
  }

  // ---------- the bytes encoded ----------

  lemma Base256Word(v: nat)
    requires v < 0x1_0000
    ensures Base256(PackWord(v)) == v
  {
    Base256Of(v / 256, v % 256, 0, 0);
  }

  lemma Base256Words(hi: word, lo: word)
    ensures Base256(PackWord(hi) + PackWord(lo)) == hi * 0x1_0000 + lo
  {
    Base256Of(hi / 256, hi % 256, lo / 256, lo % 256);
    assert PackWord(hi) + PackWord(lo) == [hi / 256, hi % 256, lo / 256, lo % 256];
    hide Base256;
  }

  lemma HighAndLow(v: nat)
    requires v < 0x1_0000_0000
    ensures 0 <= v / 0x1_0000 < 0x1_0000 && v / 0x1_0000 * 0x1_0000 + v % 0x1_0000 == v
  {}

  lemma Packs32(v: nat)
    requires v < 0x1_0000_0000
    ensures Base256(Pack32(v)) == v
  {
    HighAndLow(v);
    Base256Words(v / 0x1_0000, v % 0x1_0000);
    hide Base256, PackWord;
  }

  /** Both masks together keep the number modulo 2^32. */
  lemma PacksSwapped(v: int)
    ensures (Base256(InOrder(PackSwapped(v), true)) - v) % 0x1_0000_0000 == 0
  {
    var lo, hi := v % 0x1_0000, (v / 0x1_0000) % 0x1_0000;
    Base256Words(hi, lo);
    assert InOrder(PackSwapped(v), true) == PackWord(hi) + PackWord(lo);
    hide Base256, PackWord, PackSwapped, InOrder;
    var k := v / 0x1_0000 / 0x1_0000;
    assert v == k * 0x1_0000_0000 + (hi * 0x1_0000 + lo);
    assert hi * 0x1_0000 + lo - v == -k * 0x1_0000_0000 + 0;
  }

  lemma WrapsTo(i: int, modulus: int)
    requires modulus > 0 && -modulus <= 2 * i < modulus
    ensures 0 <= Wrap(i, modulus) < modulus && SignedOf(i, Wrap(i, modulus), modulus)
  {
    SignedIs(i, Wrap(i, modulus), modulus);
  }

  /** An integer register is refused outside its range, except that the low-word-first form of a
      32-bit register takes any number modulo 2^32; otherwise its bytes are that number's. */
  lemma EncodesTheNumber(i: int, reg: Register, e: Endianness)
    requires reg.dtype in {UINT16, UINT8, SINT16, UINT32, SINT32}
    ensures
      var r := EncodeValue(IntV(i), reg, e);
      var wide := reg.dtype in {UINT32, SINT32};
      var swapped := wide && reg.address < 500 && e == Little;
      var signed := reg.dtype in {SINT16, SINT32};
      var modulus := if wide then 0x1_0000_0000 else 0x1_0000;
      && (r.Some? <==> swapped || (if signed then -modulus <= 2 * i < modulus else 0 <= i < modulus))
      && (r.Some? ==> |r.value| == 2 * WordsNeeded(reg.dtype))
      && (r.Some? && !swapped ==>
            if signed then SignedOf(i, Base256(r.value), modulus) else Base256(r.value) == i)
      && (r.Some? && swapped ==> (Base256(InOrder(r.value, true)) - i) % modulus == 0)
  {
    hide Base256, SignedOf, PackSwapped, Pack32, PackWord, InOrder;
    var r := EncodeValue(IntV(i), reg, e);
    if reg.dtype in {UINT32, SINT32} {
      EncodesWide(i, reg, e);
    } else if reg.dtype == SINT16 {
      if r.Some? {
        WrapsTo(i, 0x1_0000);
        Base256Word(Wrap(i, 0x1_0000));
      }
    } else if r.Some? {
      Base256Word(i);
    }
  }

  lemma EncodesWide(i: int, reg: Register, e: Endianness)
    requires reg.dtype in {UINT32, SINT32}
    ensures
      var r := EncodeValue(IntV(i), reg, e);
      var swapped := reg.address < 500 && e == Little;
      var signed := reg.dtype == SINT32;
      && (r.Some? <==> swapped || (if signed then -0x1_0000_0000 <= 2 * i < 0x1_0000_0000 else 0 <= i < 0x1_0000_0000))
      && (r.Some? ==> |r.value| == 4)
      && (r.Some? && !swapped ==>
            if signed then SignedOf(i, Base256(r.value), 0x1_0000_0000) else Base256(r.value) == i)
      && (r.Some? && swapped ==> (Base256(InOrder(r.value, true)) - i) % 0x1_0000_0000 == 0)
  {
    hide Base256, SignedOf, PackSwapped, Pack32, PackWord, InOrder;
    var r := EncodeValue(IntV(i), reg, e);
    if r.Some? {
      if reg.address < 500 && e == Little {
        PacksSwapped(i);
        if reg.dtype == SINT32 {
          PacksSwapped(Wrap(i, 0x1_0000_0000));
          SameModulo(Base256(InOrder(r.value, true)), Wrap(i, 0x1_0000_0000), i);
        }
      } else if reg.dtype == UINT32 {
        Packs32(i);
      } else {
        WrapsTo(i, 0x1_0000_0000);
        Packs32(Wrap(i, 0x1_0000_0000));
      }
    }
  }

  lemma SameModulo(n: int, v: int, i: int)
    requires (n - v) % 0x1_0000_0000 == 0 && (v == i || v == i + 0x1_0000_0000)
    ensures (n - i) % 0x1_0000_0000 == 0
  {}

  /** The other types: a flag is the word 0 or 1, a finite single its four bytes in the order the
      setting asks for, a text its bytes cut or filled with NULs to the width of the register. */
  lemma EncodesTheRest(v: Value, reg: Register, e: Endianness)
    ensures
      var r := EncodeValue(v, reg, e);
      match v
      case BoolV(b) => reg.dtype == BOOL ==> r == Some([0, if b then 1 else 0])
      case FloatV(f) => reg.dtype == FLOAT32 ==>
        && (r.Some? <==> f.b0 % 128 != 127 || f.b1 < 128)
        && (r.Some? ==> |r.value| == 4 && InOrder(r.value, e == Little) == [f.b0, f.b1, f.b2, f.b3])
      case TextV(text) => reg.dtype == STRING ==>
        && r.Some? && |r.value| == 2 * reg.count
        && forall k :: 0 <= k < |r.value| ==> r.value[k] == if k < |text| then text[k] else 0
      case IntV(_) => true
  {
    if v.FloatV? && reg.dtype == FLOAT32 && v.f.Finite() {
      var r := EncodeFloat(v.f, e);
      assert r[2..4] + r[..2] == [r[2], r[3], r[0], r[1]] && r[..4] == r;
    }
  }

  /** What an external client's flag reaches the device as. */
  lemma FlagIsNormalised(raw: seq<byte>, reg: Register, e: Endianness)
    requires reg.dtype == BOOL && |raw| >= 2
    ensures EncodeForDevice(DecodeForWrite(raw, reg, e), reg, e) == Some([0, if raw[..2] == [0, 0] then 0 else 1])
  {
    assert raw[..2] == [raw[0], raw[1]];
  }

  // ---------- agreement ----------

  /** The device words for which re-encoding the decoded value gives them back. */
  predicate Faithful(raw: seq<byte>, t: DataType)
    requires |raw| >= 2 * WordsNeeded(t)
    requires t != STRING
  {
    match t
    case BOOL => raw[0] == 0 && raw[1] <= 1
    case UINT8 => raw[0] == 0 && raw[1] == 0
    case _ => true
  }

  lemma SplitWord(hi: byte, lo: byte)
    ensures PackWord(UnpackWord(hi, lo)) == [hi, lo]
  {
    var w := hi * 256 + lo;
    assert w / 256 == hi && w % 256 == lo;
  }

  lemma Split32(hi: word, lo: word)
    ensures 0 <= Unsigned32(hi, lo) < 0x1_0000_0000
    ensures Pack32(Unsigned32(hi, lo)) == PackWord(hi) + PackWord(lo)
    ensures PackSwapped(Unsigned32(hi, lo)) == PackWord(lo) + PackWord(hi)
  {
    var v := hi * 0x1_0000 + lo;
    assert v / 0x1_0000 == hi && v % 0x1_0000 == lo;
  }

  /** What EncodeInvertsDecode says of one register's bytes. */
  predicate Inverts(raw: seq<byte>, reg: Register, e: Endianness)
    requires |raw| >= 2 * WordsNeeded(reg.dtype) && reg.dtype != STRING
  {
    var v := Decode(raw, reg, e);
    var r := EncodeValue(v, reg, e);
    && (r.None? <==> v.FloatV? && !v.f.Finite())
    && (r.Some? ==>
          && |r.value| == 2 * WordsNeeded(reg.dtype)
          && (r.value == raw[..2 * WordsNeeded(reg.dtype)] <==> Faithful(raw, reg.dtype)))
  }

  lemma Inverts16(raw: seq<byte>, reg: Register, e: Endianness)
    requires |raw| >= 2 && reg.dtype in {UINT16, SINT16}
    ensures Inverts(raw, reg, e)
  {
    hide PackWord, UnpackWord;
    SplitWord(raw[0], raw[1]);
    assert raw[..2] == [raw[0], raw[1]];
  }

  lemma InvertsNarrow(raw: seq<byte>, reg: Register, e: Endianness)
    requires |raw| >= 2 && reg.dtype in {BOOL, UINT8}
    ensures Inverts(raw, reg, e)
  {
    SplitWord(0, raw[0]);
    SplitWord(0, 1);
    SplitWord(0, 0);
    assert UnpackWord(0, raw[0]) == raw[0] && UnpackWord(0, 1) == 1 && UnpackWord(0, 0) == 0;
    assert UnpackWord(raw[0], raw[1]) == 0 <==> raw[0] == 0 && raw[1] == 0;
    hide PackWord, UnpackWord;
    assert raw[..2] == [raw[0], raw[1]];
  }

  lemma InvertsInt32(raw: seq<byte>, reg: Register, e: Endianness)
    requires |raw| >= 4 && reg.dtype in {UINT32, SINT32}
    ensures Inverts(raw, reg, e)
  {
    hide PackWord, UnpackWord, Unsigned32, Pack32, PackSwapped;
    var first, second := UnpackWord(raw[0], raw[1]), UnpackWord(raw[2], raw[3]);
    SplitWord(raw[0], raw[1]);
    SplitWord(raw[2], raw[3]);
    Split32(first, second);
    Split32(second, first);
    assert raw[..4] == PackWord(first) + PackWord(second);
  }

  lemma InvertsFloat32(raw: seq<byte>, reg: Register, e: Endianness)
    requires |raw| >= 4 && reg.dtype == FLOAT32
    ensures Inverts(raw, reg, e)
  {
    assert raw[..4] == [raw[0], raw[1], raw[2], raw[3]];
  }

  /** Re-encoding a decoded numeric register is refused exactly for a non-finite FLOAT32, and
      otherwise reproduces the words decoded exactly when they are Faithful: always for the
      16- and 32-bit types, but for a BOOL only 0 and 1, and for a UINT8 only the zero word. */
  lemma EncodeInvertsDecode(raw: seq<byte>, reg: Register, e: Endianness)
    requires WellFormed(reg) && |raw| == 2 * reg.count && reg.dtype != STRING
    ensures Inverts(raw, reg, e)
  {
    hide Inverts;
    match reg.dtype
    case UINT32 | SINT32 => InvertsInt32(raw, reg, e);
    case FLOAT32 => InvertsFloat32(raw, reg, e);
    case BOOL | UINT8 => InvertsNarrow(raw, reg, e);
    case _ => Inverts16(raw, reg, e);
  }

  // ---------- the write path: the proxy decodes, the client encodes ----------

  /** `_decode_for_write`: the value of the words an external client wants written. Types
      without a branch of their own are taken as one unsigned word. */
  function DecodeForWrite(raw: seq<byte>, reg: Register, e: Endianness): Value
    requires |raw| >= 2 * WordsNeeded(reg.dtype) && |raw| >= 2
  {
    match reg.dtype
    case UINT16 | SINT16 | FLOAT32 | UINT32 => Decode(raw, reg, e)
    case _ => IntV(UnpackWord(raw[0], raw[1]))
  }

  /** `_encode_inner`: the bytes the client sends; None where it raises. */
  function EncodeForDevice(v: Value, reg: Register, e: Endianness): Option<seq<byte>> {
    match reg.dtype
    case UINT16 | SINT16 | UINT32 | FLOAT32 => EncodeValue(v, reg, e)
    case BOOL => if v.IntV? then Some(PackWord(if v.i != 0 then 1 else 0)) else None
    case _ => None
  }

  /** The words that reach the device through decode and encode are the words the external
      client sent, except that a finite check refuses NaN and infinity, types the client
      cannot encode are refused, and a BOOL is normalised to 0 or 1. */
  lemma WriteIsTransparent(raw: seq<byte>, reg: Register, e: Endianness)
    requires WellFormed(reg) && reg.count >= 1 && |raw| == 2 * reg.count
    ensures
      var v := DecodeForWrite(raw, reg, e);
      var sent := EncodeForDevice(v, reg, e);
      && (sent.None? <==> reg.dtype in {SINT32, STRING, UINT8} || (v.FloatV? && !v.f.Finite()))
      && (sent.Some? ==>
            && |sent.value| == 2 * WordsNeeded(reg.dtype)
            && (sent.value == raw[..2 * WordsNeeded(reg.dtype)] <==> Faithful(raw, reg.dtype)))
  {
    hide BigWordOrder, UnpackWord, PackWord, Pack32, PackSwapped, EncodeFloat;
    if reg.dtype != STRING {
      EncodeInvertsDecode(raw, reg, e);
    }
    if reg.dtype == BOOL {
      SplitWord(raw[0], raw[1]);
      assert raw[..2] == [raw[0], raw[1]];
    }
  }
}
