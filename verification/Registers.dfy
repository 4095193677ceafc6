/** The inverter's register map as data: what a register is, and the Python values
    the client decodes registers into. */
module Registers {

  type byte = b: int | 0 <= b < 256
  type word = w: int | 0 <= w < 0x1_0000

  datatype Option<+T> = None | Some(value: T)

  datatype DataType = UINT16 | UINT32 | SINT16 | SINT32 | FLOAT32 | STRING | BOOL | UINT8
  datatype Access = RO | RW
  datatype Group =
    | DEVICE_INFO | POWER | ENERGY | PHASE | BATTERY | POWERMETER
    | CONTROL | BATTERY_MGMT | BATTERY_LIMIT_G3 | IO_BOARD | NETWORK

  datatype Endianness = Little | Big

  datatype Register = Register(
    address: nat, name: string, dtype: DataType, count: nat,
    access: Access, group: Group, unitWh: bool)

  /** Words a decoder of this type looks at. */
  function WordsNeeded(t: DataType): nat {
    match t
    case UINT32 | SINT32 | FLOAT32 => 2
    case STRING => 0
    case _ => 1
  }

  /** A register wide enough for its type; every entry of the register map is. */
  predicate WellFormed(reg: Register) {
    reg.count >= WordsNeeded(reg.dtype)
  }

  /** Every register of the list has an address and a name of its own. */
  ghost predicate Distinct(regs: seq<Register>) {
    forall i, j :: 0 <= i < j < |regs| ==> regs[i].address != regs[j].address && regs[i].name != regs[j].name
  }

  /** The battery charge limit, for runs with actual registers. */
  const CHARGE_LIMIT := Register(1038, "bat_max_charge_limit", FLOAT32, 2, RW, BATTERY_MGMT, false)

  /** An IEEE-754 single as its four bytes, most significant first. Python's float holds
      every finite single exactly, so the pattern stands for the decoded number. */
  datatype Float32 = Float32(b0: byte, b1: byte, b2: byte, b3: byte) {
    /** Neither NaN nor infinity: the eight exponent bits are not all ones. */
    predicate Finite() {
      b0 % 128 != 127 || b1 < 128
    }
  }

  datatype Value =
    | IntV(i: int)
    | FloatV(f: Float32)
    | BoolV(b: bool)
    | TextV(text: seq<byte>)

  /** The memory of a device: a word at every address. */
  type Memory = nat -> word

  function PackWord(w: word): (r: seq<byte>)
    ensures |r| == 2
  {
    [w / 256, w % 256]
  }

  function UnpackWord(hi: byte, lo: byte): word {
    hi * 256 + lo
  }

  /** The k-th word of a byte string. */
  function WordOf(bytes: seq<byte>, k: nat): (r: seq<byte>)
    requires 2 * k + 2 <= |bytes|
    ensures |r| == 2
  {
    [bytes[2 * k], bytes[2 * k + 1]]
  }

  /** The bytes a read of `count` words at `start` answers with. */
  function ReadWords(mem: Memory, start: nat, count: nat): (r: seq<byte>)
    ensures |r| == 2 * count
    ensures forall k :: 0 <= k < count ==> WordOf(r, k) == PackWord(mem(start + k))
  {
    if count == 0 then [] else
      var front := ReadWords(mem, start, count - 1);
      var r := front + PackWord(mem(start + count - 1));
      assert forall k :: 0 <= k < count - 1 ==> WordOf(r, k) == WordOf(front, k);
      r
  }

  function RegisterBytes(mem: Memory, reg: Register): (r: seq<byte>)
    ensures |r| == 2 * reg.count
  {
    ReadWords(mem, reg.address, reg.count)
  }
}
