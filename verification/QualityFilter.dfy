/** What the client does with one answered register (modbus_client.py): decode, reject
    implausible values, substitute the last good one, remember. */
module QualityFilter {
  import opened Registers
  import opened RegisterCodec

  datatype Policy = KeepLast | Discard

  const SENTINEL_ADDRESS: nat := 575
  const SENTINEL := 32767
  const EXEMPT: set<nat> := {54, 515, 525, 527, 529, 586}
  const LIMIT_OVERRIDES: map<nat, real> := map[120 := 500000000.0, 104 := 100000000.0, 144 := 10000000000.0]
  const DEFAULT_LIMIT := 10000000.0
  const ENERGY_LIMIT := 100000000000.0

  // ---------- the number a value stands for ----------

  function Pow2(n: nat): (r: real)
    ensures r > 0.0
  {
    if n == 0 then 1.0 else 2.0 * Pow2(n - 1)
  }

  /** The number a finite IEEE-754 single denotes. */
  function RealOfFloat(f: Float32): real
    requires f.Finite()
  {
    var exponent := (f.b0 % 128) * 2 + f.b1 / 128;
    var fraction := (f.b1 % 128) * 0x1_0000 + f.b2 * 0x100 + f.b3;
    var magnitude :=
      if exponent == 0 then fraction as real / Pow2(149)
      else (fraction + 0x80_0000) as real * Pow2(exponent) / Pow2(150);
    if f.b0 >= 128 then -magnitude else magnitude
  }

  predicate IsNumber(v: Value) { !v.TextV? }

  predicate IsFinite(v: Value) { v.FloatV? ==> v.f.Finite() }

  function RealOf(v: Value): real
    requires IsNumber(v) && IsFinite(v)
  {
    match v
    case IntV(i) => i as real
    case FloatV(f) => RealOfFloat(f)
    case BoolV(b) => if b then 1.0 else 0.0
  }

  // ---------- the guards ----------

  predicate IsEnergyCounter(reg: Register) {
    reg.group == ENERGY && reg.unitWh
  }

  function AbsLimit(reg: Register): real {
    if reg.address in LIMIT_OVERRIDES then LIMIT_OVERRIDES[reg.address]
    else if IsEnergyCounter(reg) then ENERGY_LIMIT else DEFAULT_LIMIT
  }

  predicate IsSentinel(reg: Register, v: Value) {
    reg.address == SENTINEL_ADDRESS && v.IntV? && v.i >= SENTINEL
  }

  predicate OutOfRange(reg: Register, v: Value)
    requires IsNumber(v) && IsFinite(v)
  {
    && reg.address !in EXEMPT
    && ((IsEnergyCounter(reg) && RealOf(v) < 0.0) || RealOf(v) > AbsLimit(reg) || -RealOf(v) > AbsLimit(reg))
  }

  /** The value may be returned and remembered for this register. */
  predicate Passes(reg: Register, v: Value) {
    !IsSentinel(reg, v) && (IsNumber(v) ==> IsFinite(v) && !OutOfRange(reg, v))
  }

  /** The number of a finite single: its 23 fraction bits and, unless the exponent is zero, a leading
      one, scaled by the exponent; the sign is the top bit. */
  lemma FloatDenotes(f: Float32)
    requires f.Finite()
    ensures
      var exponent, fraction := (f.b0 % 128) * 2 + f.b1 / 128, Base256([f.b1 % 128, f.b2, f.b3]);
      var magnitude := if f.b0 >= 128 then -RealOfFloat(f) else RealOfFloat(f);
      if exponent == 0 then magnitude * Pow2(149) == fraction as real
      else magnitude * Pow2(150) == (0x80_0000 + fraction) as real * Pow2(exponent)
  {
    hide Pow2, Base256, RealOfFloat;
    FractionBits(f.b1 % 128, f.b2, f.b3);
    var exponent := (f.b0 % 128) * 2 + f.b1 / 128;
    var fraction := (f.b1 % 128) * 0x1_0000 + f.b2 * 0x100 + f.b3;
    var magnitude := if f.b0 >= 128 then -RealOfFloat(f) else RealOfFloat(f);
    MagnitudeIs(f, exponent, fraction, magnitude);
    ScaledBack(exponent, fraction, magnitude);
  }

  lemma ScaledBack(exponent: nat, fraction: nat, magnitude: real)
    requires magnitude == if exponent == 0 then fraction as real / Pow2(149)
                          else (fraction + 0x80_0000) as real * Pow2(exponent) / Pow2(150)
    ensures
      if exponent == 0 then magnitude * Pow2(149) == fraction as real
      else magnitude * Pow2(150) == (0x80_0000 + fraction) as real * Pow2(exponent)
  {
    hide Pow2;
    if exponent == 0 {
      QuotientTimes(fraction as real, Pow2(149), magnitude);
    } else {
      QuotientTimes((fraction + 0x80_0000) as real * Pow2(exponent), Pow2(150), magnitude);
    }
  }

  lemma MagnitudeIs(f: Float32, exponent: nat, fraction: nat, magnitude: real)
    requires f.Finite() && exponent == (f.b0 % 128) * 2 + f.b1 / 128
    requires fraction == (f.b1 % 128) * 0x1_0000 + f.b2 * 0x100 + f.b3
    requires magnitude == if f.b0 >= 128 then -RealOfFloat(f) else RealOfFloat(f)
    ensures magnitude == if exponent == 0 then fraction as real / Pow2(149)
                         else (fraction + 0x80_0000) as real * Pow2(exponent) / Pow2(150)
  {
    hide Pow2;
  }

  lemma FractionBits(m: byte, b2: byte, b3: byte)
    ensures Base256([m, b2, b3]) == m * 0x1_0000 + b2 * 0x100 + b3
  {
    assert [m, b2, b3][..2] == [m, b2] && [m, b2][..1] == [m] && [m][..0] == [];
    assert Base256([m]) == m && Base256([m, b2]) == 256 * m + b2;
  }

  lemma QuotientTimes(x: real, p: real, q: real)
    requires p > 0.0 && q == x / p
    ensures q * p == x
  {}

  /** The powers are what they are called. */
  lemma PowersDouble(n: nat)
    ensures Pow2(0) == 1.0 && Pow2(n + 1) == 2.0 * Pow2(n)
  {}

  /** Which numbers the guards let through: of register 575 none from 32767 on; of six registers any
      finite number besides; of all others those of an interval, by default ten million either way,
      and never below zero for an energy counter. */
  lemma GuardsExactly(reg: Register, v: Value)
    ensures v.TextV? ==> Passes(reg, v)
    ensures !v.TextV? && !IsFinite(v) ==> !Passes(reg, v)
    ensures !v.TextV? && IsFinite(v) ==>
      var counter := reg.group == ENERGY && reg.unitWh;
      var high := if reg.address == 120 then 500000000.0 else if reg.address == 104 then 100000000.0
                  else if reg.address == 144 then 10000000000.0
                  else if counter then 100000000000.0 else 10000000.0;
      var low := if counter then 0.0 else -high;
      (Passes(reg, v) <==>
        && !(reg.address == 575 && v.IntV? && v.i >= 32767)
        && (reg.address == 54 || reg.address == 515 || reg.address == 525 || reg.address == 527
            || reg.address == 529 || reg.address == 586 || (low <= RealOf(v) && RealOf(v) <= high)))
  {
    hide RealOf;
  }

  // ---------- state and step ----------

  /** The client's memory of past reads, by register address. */
  datatype Memo = Memo(
    lastGood: map<nat, Value>,
    generation: map<nat, nat>,   // connection the last genuine observation was read on
    retained: set<nat>)          // addresses whose latest filtered read was substituted

  const EMPTY_MEMO := Memo(map[], map[], {})

  /** `_apply_quality_filter`: the value to use (None: the read fails) and the new marks. */
  function Filter(m: Memo, reg: Register, v: Value, policy: Policy): (r: (Memo, Option<Value>)) {
    var a := reg.address;
    if Passes(reg, v) then (m.(retained := m.retained - {a}), Some(v))
    else if a in m.lastGood && policy == KeepLast then (m.(retained := m.retained + {a}), Some(m.lastGood[a]))
    else (m.(retained := m.retained - {a}), None)
  }

  /** Filter a decoded value and, unless that failed, remember it. */
  function Accept(m: Memo, reg: Register, v: Value, gen: nat, policy: Policy): (r: (Memo, Option<Value>)) {
    var (m1, kept) := Filter(m, reg, v, policy);
    if kept.None? then (m1, kept)
    else
      var a := reg.address;
      var m2 := if a in m1.retained then m1 else m1.(generation := m1.generation[a := gen]);
      (m2.(lastGood := m2.lastGood[a := kept.value]), kept)
  }

  // ---------- whole runs ----------

  /** One answered read: the register, the decoded value, the connection it was read on. */
  datatype Answer = Answer(reg: Register, v: Value, gen: nat)

  function AcceptAll(m: Memo, run: seq<Answer>, policy: Policy): Memo {
    if run == [] then m
    else
      var x := run[|run| - 1];
      Accept(AcceptAll(m, run[..|run| - 1], policy), x.reg, x.v, x.gen, policy).0
  }

  /** An address names one register throughout. */
  ghost predicate AddressesNameRegisters(run: seq<Answer>) {
    forall x, y :: x in run && y in run && x.reg.address == y.reg.address ==> x.reg == y.reg
  }

  /** The latest read of address `a`. */
  function Latest(run: seq<Answer>, a: nat): (r: Option<Answer>)
    ensures r.Some? ==> r.value in run && r.value.reg.address == a
    ensures r.None? ==> forall x :: x in run ==> x.reg.address != a
  {
    if run == [] then None
    else
      var x := run[|run| - 1];
      assert forall y :: y in run ==> y == x || y in run[..|run| - 1];
      if x.reg.address == a then Some(x) else Latest(run[..|run| - 1], a)
  }

  ghost predicate SomePassed(run: seq<Answer>, a: nat) {
    exists x :: x in run && x.reg.address == a && Passes(x.reg, x.v)
  }

  /** In every run from an empty memory, what is known of one address: a remembered value is a
      value some read of that address really answered with on the recorded connection, and it
      passes the register's guards; the address is marked retained exactly when its latest read
      was answered with something the guards reject and the remembered value stood in for it. */
  lemma {:induction false} RememberedValuesPass(run: seq<Answer>, a: nat, policy: Policy)
    requires AddressesNameRegisters(run)
    ensures
      var m := AcceptAll(EMPTY_MEMO, run, policy);
      var latest := Latest(run, a);
      && (a in m.lastGood <==> a in m.generation)
      && (a in m.lastGood <==> SomePassed(run, a))
      && (a in m.lastGood ==>
            exists x :: x in run && x == Answer(x.reg, m.lastGood[a], m.generation[a])
                        && x.reg.address == a && Passes(x.reg, x.v))
      && (a in m.retained <==>
            latest.Some? && a in m.lastGood && policy == KeepLast && !Passes(latest.value.reg, latest.value.v))
  {
    if run != [] {
      var n := |run| - 1;
      var front, last := run[..n], run[n];
      assert forall x :: x in run <==> x == last || x in front;
      RememberedValuesPass(front, a, policy);
    }
  }

  /** What a read returns: the value answered if the guards let it through, otherwise (keeping
      last values) the remembered one, which passes them too; never a rejected value. */
  lemma ReturnedValuesPass(run: seq<Answer>, x: Answer, policy: Policy)
    requires AddressesNameRegisters(run + [x])
    ensures
      var m := AcceptAll(EMPTY_MEMO, run, policy);
      var r := Accept(m, x.reg, x.v, x.gen, policy).1;
      && (r.Some? ==> Passes(x.reg, r.value))
      && (r.None? <==> !Passes(x.reg, x.v) && (policy == Discard || !SomePassed(run, x.reg.address)))
  {
    assert x in run + [x];
    assert forall y :: y in run ==> y in run + [x];
    RememberedValuesPass(run, x.reg.address, policy);
  }
}
