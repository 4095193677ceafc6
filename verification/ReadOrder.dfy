/** The order in which a batch reads its registers does not matter, because each register only
    touches what is stored under its own address and name. */
module ReadOrder {
  import opened Registers
  import opened RegisterCodec
  import opened QualityFilter
  import opened BatchReader

  /** What is stored for one address. */
  datatype Cell = Cell(lastGood: Option<Value>, generation: Option<nat>, retained: bool)

  function At(m: Memo, a: nat): Cell {
    Cell(if a in m.lastGood then Some(m.lastGood[a]) else None,
         if a in m.generation then Some(m.generation[a]) else None,
         a in m.retained)
  }

  function ValueAt(values: map<string, Value>, name: string): Option<Value> {
    if name in values then Some(values[name]) else None
  }

  lemma MemoExtensional(m: Memo, n: Memo)
    requires forall a :: At(m, a) == At(n, a)
    ensures m == n
  {
    assert forall a :: a in m.lastGood <==> At(m, a).lastGood.Some?;
    assert forall a :: a in n.lastGood <==> At(n, a).lastGood.Some?;
    assert forall a :: a in m.generation <==> At(m, a).generation.Some?;
    assert forall a :: a in n.generation <==> At(n, a).generation.Some?;
    assert forall a :: a in m.retained <==> At(m, a).retained;
    assert forall a :: a in n.retained <==> At(n, a).retained;
    forall a | a in m.lastGood ensures m.lastGood[a] == n.lastGood[a] {
      assert At(m, a) == At(n, a);
    }
    forall a | a in m.generation ensures m.generation[a] == n.generation[a] {
      assert At(m, a) == At(n, a);
    }
  }

  lemma ValuesExtensional(v: map<string, Value>, w: map<string, Value>)
    requires forall name :: ValueAt(v, name) == ValueAt(w, name)
    ensures v == w
  {
    forall name ensures name in v <==> name in w {
      assert ValueAt(v, name) == ValueAt(w, name);
    }
    forall name | name in v ensures v[name] == w[name] {
      assert ValueAt(v, name) == ValueAt(w, name);
    }
  }

  /** One register leaves other addresses and names alone, and what it does at its own depends
      only on what was stored there. */
  lemma StepIsLocal(x: Reading, y: Reading, reg: Register, mem: Memory, link: Link)
    requires WellFormed(reg)
    ensures forall a :: a != reg.address ==> At(AcceptStep(x, reg, mem, link).memo, a) == At(x.memo, a)
    ensures forall n :: n != reg.name ==> ValueAt(AcceptStep(x, reg, mem, link).values, n) == ValueAt(x.values, n)
    ensures At(x.memo, reg.address) == At(y.memo, reg.address) ==>
      At(AcceptStep(x, reg, mem, link).memo, reg.address) == At(AcceptStep(y, reg, mem, link).memo, reg.address)
    ensures
      (At(x.memo, reg.address) == At(y.memo, reg.address)
       && ValueAt(x.values, reg.name) == ValueAt(y.values, reg.name)) ==>
      ValueAt(AcceptStep(x, reg, mem, link).values, reg.name) == ValueAt(AcceptStep(y, reg, mem, link).values, reg.name)
  {
    var v := Decode(RegisterBytes(mem, reg), reg, link.e);
    FilterIsLocal(x.memo, y.memo, reg, v, link);
  }

  lemma FilterIsLocal(m: Memo, n: Memo, reg: Register, v: Value, link: Link)
    ensures forall a :: a != reg.address ==> At(Accept(m, reg, v, link.gen, link.policy).0, a) == At(m, a)
    ensures At(m, reg.address) == At(n, reg.address) ==>
      var x, y := Accept(m, reg, v, link.gen, link.policy), Accept(n, reg, v, link.gen, link.policy);
      At(x.0, reg.address) == At(y.0, reg.address) && x.1 == y.1
  {
    hide Passes;
    if At(m, reg.address) == At(n, reg.address) {
      FilterAgrees(m, n, reg, v, link);
    }
  }

  lemma FilterAgrees(m: Memo, n: Memo, reg: Register, v: Value, link: Link)
    requires At(m, reg.address) == At(n, reg.address)
    ensures
      var x, y := Accept(m, reg, v, link.gen, link.policy), Accept(n, reg, v, link.gen, link.policy);
      At(x.0, reg.address) == At(y.0, reg.address) && x.1 == y.1
  {
    hide Passes;
    assert reg.address in m.lastGood <==> At(m, reg.address).lastGood.Some?;
    assert reg.address in n.lastGood <==> At(n, reg.address).lastGood.Some?;
  }

  lemma {:induction false} Elsewhere(x: Reading, regs: seq<Register>, a: nat, name: string, mem: Memory, link: Link)
    requires AllWellFormed(regs)
    ensures (forall reg :: reg in regs ==> reg.address != a) ==>
      At(AcceptEach(x, regs, mem, link).memo, a) == At(x.memo, a)
    ensures (forall reg :: reg in regs ==> reg.name != name) ==>
      ValueAt(AcceptEach(x, regs, mem, link).values, name) == ValueAt(x.values, name)
    decreases |regs|
  {
    if regs != [] {
      StepIsLocal(x, x, regs[0], mem, link);
      Elsewhere(AcceptStep(x, regs[0], mem, link), regs[1..], a, name, mem, link);
      assert regs[0] in regs;
    }
  }

  /** Among distinct registers, one is accepted as if it were the only one. */
  lemma {:induction false} AsIfAlone(x: Reading, regs: seq<Register>, k: nat, mem: Memory, link: Link)
    requires AllWellFormed(regs) && Distinct(regs) && k < |regs|
    ensures
      var r, alone := AcceptEach(x, regs, mem, link), AcceptStep(x, regs[k], mem, link);
      && At(r.memo, regs[k].address) == At(alone.memo, regs[k].address)
      && ValueAt(r.values, regs[k].name) == ValueAt(alone.values, regs[k].name)
    decreases |regs|
  {
    var x1 := AcceptStep(x, regs[0], mem, link);
    if k == 0 {
      Elsewhere(x1, regs[1..], regs[0].address, regs[0].name, mem, link);
    } else {
      StepIsLocal(x, x, regs[0], mem, link);
      StepIsLocal(x1, x, regs[k], mem, link);
      AsIfAlone(x1, regs[1..], k - 1, mem, link);
    }
  }

  /** Two orders of the same distinct registers give the same reading. */
  lemma OrderIrrelevant(x: Reading, regs: seq<Register>, others: seq<Register>, mem: Memory, link: Link)
    requires AllWellFormed(regs) && AllWellFormed(others) && Distinct(regs) && Distinct(others)
    requires forall reg :: reg in regs <==> reg in others
    ensures AcceptEach(x, regs, mem, link) == AcceptEach(x, others, mem, link)
  {
    var r, s := AcceptEach(x, regs, mem, link), AcceptEach(x, others, mem, link);
    forall a ensures At(r.memo, a) == At(s.memo, a) {
      if reg :| reg in regs && reg.address == a {
        SameSpot(x, regs, others, reg, mem, link);
      } else {
        Elsewhere(x, regs, a, "", mem, link);
        Elsewhere(x, others, a, "", mem, link);
      }
    }
    forall n ensures ValueAt(r.values, n) == ValueAt(s.values, n) {
      if reg :| reg in regs && reg.name == n {
        SameSpot(x, regs, others, reg, mem, link);
      } else {
        Elsewhere(x, regs, 0, n, mem, link);
        Elsewhere(x, others, 0, n, mem, link);
      }
    }
    MemoExtensional(r.memo, s.memo);
    ValuesExtensional(r.values, s.values);
  }

  lemma SameSpot(x: Reading, regs: seq<Register>, others: seq<Register>, reg: Register, mem: Memory, link: Link)
    requires AllWellFormed(regs) && AllWellFormed(others) && Distinct(regs) && Distinct(others)
    requires reg in regs && reg in others
    ensures
      var r, s := AcceptEach(x, regs, mem, link), AcceptEach(x, others, mem, link);
      At(r.memo, reg.address) == At(s.memo, reg.address) && ValueAt(r.values, reg.name) == ValueAt(s.values, reg.name)
  {
    var i :| 0 <= i < |regs| && regs[i] == reg;
    var j :| 0 <= j < |others| && others[j] == reg;
    AsIfAlone(x, regs, i, mem, link);
    AsIfAlone(x, others, j, mem, link);
  }

  lemma {:induction false} KeptDistinct(u: Backoff, regs: seq<Register>, now: real)
    requires Distinct(regs)
    ensures Distinct(Kept(u, regs, now))
    ensures forall reg :: reg in Kept(u, regs, now) <==> reg in regs && !Suppressed(u, reg.address, now)
  {
    if regs != [] {
      KeptDistinct(u, regs[1..], now);
      assert regs == [regs[0]] + regs[1..];
      forall reg | reg in Kept(u, regs[1..], now)
        ensures reg.address != regs[0].address && reg.name != regs[0].name
      {
        var k :| 0 <= k < |regs[1..]| && regs[1..][k] == reg;
        assert regs[k + 1] == reg;
      }
    }
  }

  lemma DistinctParts(front: seq<Register>, back: seq<Register>)
    requires Distinct(front + back)
    ensures Distinct(front) && Distinct(back)
    ensures forall x, y :: x in front && y in back ==> x.address != y.address
  {
    var all := front + back;
    assert forall i :: 0 <= i < |front| ==> all[i] == front[i];
    forall i, j | 0 <= i < j < |back|
      ensures back[i].address != back[j].address && back[i].name != back[j].name
    {
      assert all[|front| + i] == back[i] && all[|front| + j] == back[j];
    }
    forall x, y | x in front && y in back ensures x.address != y.address {
      var i :| 0 <= i < |front| && front[i] == x;
      var j :| 0 <= j < |back| && back[j] == y;
      assert all[i] == x && all[|front| + j] == y;
    }
  }

  lemma SortedDistinct(regs: seq<Register>)
    requires Distinct(regs)
    ensures Distinct(SortByAddress(regs))
  {
    SortPermutes(regs);
    var s := SortByAddress(regs);
    forall i, j | 0 <= i < j < |s|
      ensures s[i].address != s[j].address && s[i].name != s[j].name
    {
      if s[i] == s[j] {
        Multiplicity(regs, s[i]);
        TwoOccurrences(s, i, j);
      }
      assert s[i] in s && s[j] in s;
      var a :| 0 <= a < |regs| && regs[a] == s[i];
      var b :| 0 <= b < |regs| && regs[b] == s[j];
      assert a != b;
    }
  }

  lemma TwoOccurrences(s: seq<Register>, i: nat, j: nat)
    requires i < j < |s| && s[i] == s[j]
    ensures multiset(s)[s[i]] >= 2
  {
    assert s == s[..j] + [s[j]] + s[j + 1..];
    assert s[i] in s[..j];
  }

  lemma {:induction false} Multiplicity(regs: seq<Register>, reg: Register)
    requires Distinct(regs)
    ensures multiset(regs)[reg] <= 1
  {
    if regs != [] {
      Multiplicity(regs[1..], reg);
      assert regs == [regs[0]] + regs[1..];
      if reg == regs[0] {
        forall k | 0 <= k < |regs[1..]| ensures regs[1..][k] != reg {
          assert regs[k + 1].address != regs[0].address;
        }
        assert multiset(regs[1..])[reg] == 0;
      }
    }
  }

  /** A suppression is gone after the pass exactly if it had expired and its register was in the list. */
  lemma {:induction false} ExpiredSuppressions(u: Backoff, regs: seq<Register>, now: real)
    ensures forall a :: a in ExpireAll(u, regs, now).suppressed <==>
      a in u.suppressed && (a in Addresses(regs) ==> Suppressed(u, a, now))
    ensures forall a :: a in ExpireAll(u, regs, now).suppressed ==>
      ExpireAll(u, regs, now).suppressed[a] == u.suppressed[a]
    decreases |regs|
  {
    if regs != [] {
      var u1 := Expire(u, regs[0].address, now);
      ExpireKeeps(u, regs[0].address, now);
      ExpiredSuppressions(u1, regs[1..], now);
    }
  }

  lemma SortKeepsSuppressions(u: Backoff, regs: seq<Register>, now: real)
    ensures ExpireAll(u, SortByAddress(regs), now).suppressed == ExpireAll(u, regs, now).suppressed
  {
    hide Suppressed, SortByAddress;
    ExpiredSuppressions(u, SortByAddress(regs), now);
    ExpiredSuppressions(u, regs, now);
    assert Addresses(SortByAddress(regs)) == Addresses(regs);
  }

  lemma SortKeepsReading(x: Reading, u: Backoff, regs: seq<Register>, mem: Memory, link: Link)
    requires AllWellFormed(regs) && Distinct(regs)
    ensures AcceptEach(x, Kept(u, SortByAddress(regs), link.now), mem, link)
         == AcceptEach(x, Kept(u, regs, link.now), mem, link)
  {
    var sorted := SortByAddress(regs);
    SortedDistinct(regs);
    KeptDistinct(u, sorted, link.now);
    KeptDistinct(u, regs, link.now);
    hide Distinct, Kept, SortByAddress, AcceptEach;
    OrderIrrelevant(x, Kept(u, sorted, link.now), Kept(u, regs, link.now), mem, link);
  }

  /** The batch equals calling `read_register` on each register in the caller's own order: values,
      remembered values, connections, marks and suppressions are the same. */
  lemma BatchRefinesCallerOrder(c: Client, regs: seq<Register>, link: Link, mem: Memory)
    requires AllWellFormed(regs) && Distinct(regs) && Serves(link, mem, regs)
    ensures
      var b, r := Batch(c, regs, link), OneByOne(Outcome(c, map[], true), regs, link);
      && b.alive && r.alive
      && b.values == r.values && b.client.memo == r.client.memo
      && b.client.backoff.suppressed == r.client.backoff.suppressed
  {
    var sorted := SortByAddress(regs);
    var o := Outcome(c, map[], true);
    assert AllWellFormed(sorted) && Serves(link, mem, sorted);
    hide Kept, Batch, OneByOne, Serves, Distinct, SortByAddress, ExpireAll, AcceptEach;
    BatchRefinesOneByOne(c, regs, link, mem);
    OneByOneAccepts(o, sorted, link, mem);
    OneByOneAccepts(o, regs, link, mem);
    SortKeepsReading(ReadingOf(o), c.backoff, regs, mem, link);
    SortKeepsSuppressions(c.backoff, regs, link.now);
  }
}
