/** The median of a window of numbers, and what a majority of its entries says about it. */
module Windows {

  predicate Ascending(s: seq<real>) {
    forall i, j :: 0 <= i < j < |s| ==> s[i] <= s[j]
  }

  function InsertReal(s: seq<real>, x: real): (r: seq<real>)
    requires Ascending(s)
    ensures Ascending(r) && |r| == |s| + 1
    ensures r[|s|] == if s == [] || s[|s| - 1] <= x then x else s[|s| - 1]
  {
    if s == [] || s[|s| - 1] <= x then s + [x] else InsertReal(s[..|s| - 1], x) + [s[|s| - 1]]
  }

  function SortReals(s: seq<real>): (r: seq<real>)
    ensures Ascending(r) && |r| == |s|
  {
    if s == [] then [] else InsertReal(SortReals(s[..|s| - 1]), s[|s| - 1])
  }

  /** `statistics.median`: the middle value, or the mean of the two middle values. */
  function Median(s: seq<real>): real
    requires s != []
  {
    var t, m := SortReals(s), |s| / 2;
    if |s| % 2 == 1 then t[m] else (t[m - 1] + t[m]) / 2.0
  }

  /** How many entries lie in [lo, hi]. */
  function CountIn(s: seq<real>, lo: real, hi: real): (n: nat)
    ensures n <= |s|
  {
    if s == [] then 0
    else CountIn(s[..|s| - 1], lo, hi) + if lo <= s[|s| - 1] <= hi then 1 else 0
  }

  lemma {:induction false} CountAppend(a: seq<real>, b: seq<real>, lo: real, hi: real)
    ensures CountIn(a + b, lo, hi) == CountIn(a, lo, hi) + CountIn(b, lo, hi)
  {
    if b == [] {
      assert a + b == a;
    } else {
      assert (a + b)[..|a + b| - 1] == a + b[..|b| - 1];
      CountAppend(a, b[..|b| - 1], lo, hi);
    }
  }

  lemma {:induction false} CountAll(s: seq<real>, lo: real, hi: real)
    requires forall i :: 0 <= i < |s| ==> lo <= s[i] <= hi
    ensures CountIn(s, lo, hi) == |s|
  {
    if s != [] {
      CountAll(s[..|s| - 1], lo, hi);
    }
  }

  lemma {:induction false} CountNone(s: seq<real>, lo: real, hi: real)
    requires forall i :: 0 <= i < |s| ==> s[i] < lo || s[i] > hi
    ensures CountIn(s, lo, hi) == 0
  {
    if s != [] {
      CountNone(s[..|s| - 1], lo, hi);
    }
  }

  lemma {:induction false} InsertCounts(s: seq<real>, x: real, lo: real, hi: real)
    requires Ascending(s)
    ensures CountIn(InsertReal(s, x), lo, hi) == CountIn(s, lo, hi) + if lo <= x <= hi then 1 else 0
  {
    if s == [] || s[|s| - 1] <= x {
      assert (s + [x])[..|s|] == s;
    } else {
      var n, r := |s| - 1, InsertReal(s, x);
      InsertCounts(s[..n], x, lo, hi);
      assert r == InsertReal(s[..n], x) + [s[n]];
      assert r[..|r| - 1] == InsertReal(s[..n], x) && r[|r| - 1] == s[n];
    }
  }

  lemma {:induction false} SortCounts(s: seq<real>, lo: real, hi: real)
    ensures CountIn(SortReals(s), lo, hi) == CountIn(s, lo, hi)
  {
    if s != [] {
      SortCounts(s[..|s| - 1], lo, hi);
      InsertCounts(SortReals(s[..|s| - 1]), s[|s| - 1], lo, hi);
    }
  }

  /** In a sorted window, an entry below the interval excludes it and all before. */
  lemma CountBefore(t: seq<real>, i: nat, lo: real, hi: real)
    requires Ascending(t) && i < |t| && t[i] < lo
    ensures CountIn(t, lo, hi) <= |t| - (i + 1)
  {
    hide CountIn;
    CountNone(t[..i + 1], lo, hi);
    CountAppend(t[..i + 1], t[i + 1..], lo, hi);
    assert t == t[..i + 1] + t[i + 1..];
  }

  /** An entry above it excludes itself and all after. */
  lemma CountAfter(t: seq<real>, i: nat, lo: real, hi: real)
    requires Ascending(t) && i < |t| && t[i] > hi
    ensures CountIn(t, lo, hi) <= i
  {
    hide CountIn;
    CountNone(t[i..], lo, hi);
    CountAppend(t[..i], t[i..], lo, hi);
    assert t == t[..i] + t[i..];
  }

  lemma CountAround(t: seq<real>, i: nat, lo: real, hi: real)
    requires Ascending(t) && i < |t|
    ensures t[i] < lo ==> CountIn(t, lo, hi) <= |t| - (i + 1)
    ensures t[i] > hi ==> CountIn(t, lo, hi) <= i
  {
    hide CountIn;
    if t[i] < lo { CountBefore(t, i, lo, hi); }
    if t[i] > hi { CountAfter(t, i, lo, hi); }
  }

  /** A strict majority of the entries holds the median inside its interval. */
  lemma MajorityHoldsMedian(s: seq<real>, lo: real, hi: real)
    requires 2 * CountIn(s, lo, hi) > |s|
    ensures lo <= Median(s) <= hi
  {
    hide CountIn, SortReals;
    var t, m := SortReals(s), |s| / 2;
    SortCounts(s, lo, hi);
    CountAround(t, m, lo, hi);
    if |s| % 2 == 0 {
      CountAround(t, m - 1, lo, hi);
    }
  }

  lemma {:induction false} InsertPermutes(s: seq<real>, x: real)
    requires Ascending(s)
    ensures multiset(InsertReal(s, x)) == multiset(s) + multiset{x}
  {
    if s != [] && s[|s| - 1] > x {
      var front, last := s[..|s| - 1], s[|s| - 1];
      assert Ascending(front) && s == front + [last];
      assert InsertReal(s, x) == InsertReal(front, x) + [last];
      InsertPermutes(front, x);
      hide Ascending, InsertReal;
    } else {
      assert InsertReal(s, x) == s + [x];
    }
  }

  lemma {:induction false} SortPermutes(s: seq<real>)
    ensures multiset(SortReals(s)) == multiset(s)
  {
    if s != [] {
      var front, last := s[..|s| - 1], s[|s| - 1];
      assert s == front + [last];
      SortPermutes(front);
      InsertPermutes(SortReals(front), last);
      hide InsertReal, Ascending;
    }
  }

  lemma LastIsGreatest(t: seq<real>)
    requires Ascending(t) && t != []
    ensures forall x :: x in multiset(t) ==> x <= t[|t| - 1]
  {
    forall x | x in multiset(t) ensures x <= t[|t| - 1] {
      assert x in t;
    }
  }

  /** A window has one ascending order. */
  lemma {:induction false} AscendingIsUnique(t: seq<real>, u: seq<real>)
    requires Ascending(t) && Ascending(u) && multiset(t) == multiset(u)
    ensures t == u
  {
    SameSize(t, u);
    if t != [] {
      var n := |t| - 1;
      SameLast(t, u);
      FrontsAgree(t, u);
      AscendingFront(t);
      AscendingFront(u);
      hide Ascending;
      AscendingIsUnique(t[..n], u[..n]);
      Rejoin(t, u);
    }
  }

  lemma AscendingFront(t: seq<real>)
    requires Ascending(t) && t != []
    ensures Ascending(t[..|t| - 1])
  {}

  lemma FrontsAgree(t: seq<real>, u: seq<real>)
    requires multiset(t) == multiset(u) && |t| == |u| > 0 && t[|t| - 1] == u[|u| - 1]
    ensures multiset(t[..|t| - 1]) == multiset(u[..|u| - 1])
  {
    WithoutLast(t);
    WithoutLast(u);
  }

  lemma Rejoin(t: seq<real>, u: seq<real>)
    requires |t| == |u| > 0 && t[..|t| - 1] == u[..|u| - 1] && t[|t| - 1] == u[|u| - 1]
    ensures t == u
  {
    assert t == t[..|t| - 1] + [t[|t| - 1]] && u == u[..|u| - 1] + [u[|u| - 1]];
  }

  lemma SameLast(t: seq<real>, u: seq<real>)
    requires Ascending(t) && Ascending(u) && multiset(t) == multiset(u) && t != [] && |t| == |u|
    ensures t[|t| - 1] == u[|u| - 1]
  {
    var n := |t| - 1;
    LastIsGreatest(t);
    LastIsGreatest(u);
    hide Ascending;
    assert t[n] in t && u[n] in u;
    assert t[n] in multiset(u) && u[n] in multiset(t);
  }

  lemma SameSize(t: seq<real>, u: seq<real>)
    requires multiset(t) == multiset(u)
    ensures |t| == |u|
  {
    assert |multiset(t)| == |t| && |multiset(u)| == |u|;
  }

  lemma WithoutLast(t: seq<real>)
    requires t != []
    ensures multiset(t[..|t| - 1]) == multiset(t) - multiset{t[|t| - 1]}
  {
    assert t == t[..|t| - 1] + [t[|t| - 1]];
  }

  /** Whatever way the window is put in order, the median is its middle entry, or half way between
      the two middle ones. */
  lemma MedianIsMiddle(s: seq<real>, t: seq<real>)
    requires s != [] && Ascending(t) && multiset(t) == multiset(s)
    ensures |t| == |s|
    ensures |s| % 2 == 1 ==> Median(s) == t[|s| / 2]
    ensures |s| % 2 == 0 ==> 2.0 * Median(s) == t[|s| / 2 - 1] + t[|s| / 2]
  {
    SortPermutes(s);
    AscendingIsUnique(SortReals(s), t);
  }
}
