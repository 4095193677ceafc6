/** The learned DC shares told by the powers of the strings (health_monitor.py): which polls sample
    which string, what share they record, and what a fault or a dead string comes to. */
module StringPowers {
  import opened Registers
  import opened Windows
  import opened DcShareBaseline

  type Poll = map<Key, real>

  // ---------- one poll ----------

  /** The input is readable, and a string: with a battery DC3 is none. */
  predicate Readable(p: Poll, k: Key, cfg: Config) {
    k in p && (k == DC3 ==> cfg.numBidirectional == 0)
  }

  /** Its power; a negative one counts as none. */
  function Watts(p: Poll, k: Key, cfg: Config): real {
    if Readable(p, k, cfg) && p[k] > 0.0 then p[k] else 0.0
  }

  /** The power of all strings together. */
  function AllWatts(p: Poll, cfg: Config): real {
    Watts(p, DC1, cfg) + Watts(p, DC2, cfg) + Watts(p, DC3, cfg)
  }

  /** At least two strings are readable and they produce 200 W or more together. */
  predicate Producing(p: Poll, cfg: Config) {
    && (exists j, k :: j != k && Readable(p, j, cfg) && Readable(p, k, cfg))
    && AllWatts(p, cfg) >= 200.0
  }

  lemma PowersAre(p: Poll, cfg: Config)
    ensures forall k :: k in Powers(p, cfg) <==> Readable(p, k, cfg)
    ensures forall k :: PowerOf(Powers(p, cfg), k) == Watts(p, k, cfg)
    ensures Total(Powers(p, cfg)) == AllWatts(p, cfg)
  {}

  lemma TwoKeys(m: map<Key, real>)
    ensures |m| >= 2 <==> exists j, k :: j != k && j in m && k in m
  {
    assert |m| == |m.Keys|;
    if j, k :| j != k && j in m && k in m {
      assert {j, k} <= m.Keys;
      Larger({j, k}, m.Keys);
    }
    if |m| >= 2 {
      var j :| j in m.Keys;
      assert |m.Keys - {j}| == |m.Keys| - 1;
      var k :| k in m.Keys - {j};
      assert j != k && j in m && k in m;
    }
  }

  lemma {:induction false} Larger(s: set<Key>, t: set<Key>)
    requires s <= t
    ensures |s| <= |t|
  {
    if k :| k in s {
      Larger(s - {k}, t - {k});
    }
  }

  lemma MeaningfulIsProducing(p: Poll, cfg: Config)
    ensures Meaningful(Powers(p, cfg)) <==> Producing(p, cfg)
  {
    PowersAre(p, cfg);
    TwoKeys(Powers(p, cfg));
    hide Powers, Total, Readable, Watts;
  }

  /** A string has shown at least a twentieth of the power in a poll that counts. */
  predicate ShowsIn(p: Poll, k: Key, cfg: Config) {
    Producing(p, cfg) && Readable(p, k, cfg) && 20.0 * Watts(p, k, cfg) >= AllWatts(p, cfg)
  }

  lemma RawShareOf(powers: map<Key, real>, k: Key, total: real)
    requires Meaningful(powers) && k in powers && total == Total(powers)
    ensures RawShares(powers)[k] * total == powers[k]
  {
    assert total >= 200.0;
    var share := RawShares(powers)[k];
    assert share == powers[k] / total;
    hide Meaningful, Total, RawShares;
    Quotient(powers[k], total, share);
  }

  lemma RawShareIs(p: Poll, k: Key, cfg: Config)
    requires Producing(p, cfg)
    ensures Meaningful(Powers(p, cfg))
    ensures k in RawShares(Powers(p, cfg)) <==> Readable(p, k, cfg)
    ensures k in RawShares(Powers(p, cfg)) ==>
      RawShares(Powers(p, cfg))[k] * AllWatts(p, cfg) == Watts(p, k, cfg)
  {
    MeaningfulIsProducing(p, cfg);
    PowersAre(p, cfg);
    hide Powers, Total, Watts, Producing, AllWatts, Meaningful, Readable;
    assert k in RawShares(Powers(p, cfg)) <==> k in Powers(p, cfg);
    hide RawShares;
    if k in Powers(p, cfg) {
      RawShareOf(Powers(p, cfg), k, AllWatts(p, cfg));
    }
  }

  lemma Quotient(w: real, total: real, share: real)
    requires total > 0.0 && share == w / total
    ensures share * total == w
  {}

  lemma TwentiethIs(share: real, watts: real, total: real)
    requires total >= 200.0 && share * total == watts
    ensures share >= 0.05 <==> 20.0 * watts >= total
  {
    assert (share - 0.05) * total == watts - 0.05 * total;
    if share >= 0.05 {
      Nonnegative(share - 0.05, total);
    } else {
      Negative(share - 0.05, total);
    }
  }

  lemma Nonnegative(x: real, y: real)
    requires x >= 0.0 && y > 0.0
    ensures x * y >= 0.0
  {}

  lemma Negative(x: real, y: real)
    requires x < 0.0 && y > 0.0
    ensures x * y < 0.0
  {}

  // ---------- which polls sample which string ----------

  /** The string has shown a twentieth of the power in some poll of the session. */
  ghost predicate HasProduced(polls: seq<Poll>, k: Key, cfg: Config) {
    exists i :: 0 <= i < |polls| && ShowsIn(polls[i], k, cfg)
  }

  /** The last poll samples string k: it produces, and k and another readable string have shown
      power this session. */
  ghost predicate Counts(polls: seq<Poll>, k: Key, cfg: Config)
    requires polls != []
  {
    var p := polls[|polls| - 1];
    && Producing(p, cfg) && Readable(p, k, cfg) && HasProduced(polls, k, cfg)
    && exists j :: j != k && Readable(p, j, cfg) && HasProduced(polls, j, cfg)
  }

  lemma ActiveStep(s: Shares, p: Poll, k: Key, cfg: Config)
    ensures k in Record(s, p, cfg).active <==> k in s.active || ShowsIn(p, k, cfg)
    ensures Producing(p, cfg) ==>
      Meaningful(Powers(p, cfg)) && Record(s, p, cfg).active == ActiveAfter(s.active, RawShares(Powers(p, cfg)))
  {
    hide Sampled, Suspect, LongAfter, Push, Powers, Readable, Watts, AllWatts;
    MeaningfulIsProducing(p, cfg);
    if Producing(p, cfg) {
      RawShareIs(p, k, cfg);
      if Readable(p, k, cfg) {
        var share := RawShares(Powers(p, cfg))[k];
        assert AllWatts(p, cfg) >= 200.0;
        hide RawShares, Producing, Meaningful;
        TwentiethIs(share, Watts(p, k, cfg), AllWatts(p, cfg));
      }
    }
  }

  lemma {:induction false} ActiveIsProduced(polls: seq<Poll>, k: Key, cfg: Config)
    ensures k in After(NO_SHARES, polls, cfg).active <==> HasProduced(polls, k, cfg)
  {
    hide Record, ShowsIn;
    if polls != [] {
      var m := |polls| - 1;
      ActiveIsProduced(polls[..m], k, cfg);
      ActiveStep(After(NO_SHARES, polls[..m], cfg), polls[m], k, cfg);
      if i :| 0 <= i < |polls| && ShowsIn(polls[i], k, cfg) && i < m {
        assert polls[..m][i] == polls[i];
      }
      if i :| 0 <= i < m && ShowsIn(polls[..m][i], k, cfg) {
        assert polls[..m][i] == polls[i];
      }
    }
  }

  lemma AnotherKey(m: map<Key, real>, k: Key)
    ensures k in m ==> (|m| >= 2 <==> exists j :: j != k && j in m)
  {
    TwoKeys(m);
  }

  lemma SampledMap(s: Shares, p: Poll, cfg: Config)
    requires Producing(p, cfg)
    ensures Meaningful(Powers(p, cfg))
    ensures
      var kept := Among(RawShares(Powers(p, cfg)), Record(s, p, cfg).active);
      Sampled(s, p, cfg) == if |kept| < 2 then map[] else kept
  {
    ActiveStep(s, p, DC1, cfg);
    hide RawShares, ActiveAfter, Record, Powers, Among, Meaningful, Producing;
  }

  lemma NothingSampled(s: Shares, p: Poll, cfg: Config)
    requires !Producing(p, cfg)
    ensures Sampled(s, p, cfg) == map[]
  {
    MeaningfulIsProducing(p, cfg);
    hide Powers, Producing, Meaningful;
  }

  lemma AmongActive(s: Shares, p: Poll, k: Key, cfg: Config)
    requires Producing(p, cfg) && Meaningful(Powers(p, cfg))
    ensures
      var raw, active := RawShares(Powers(p, cfg)), Record(s, p, cfg).active;
      && (k in Among(raw, active) <==> Readable(p, k, cfg) && k in active)
      && (k in Among(raw, active) ==> k in raw && Among(raw, active)[k] == raw[k])
  {
    hide Producing, Meaningful, Powers, RawShares, Record, Readable, Watts, AllWatts;
    RawShareIs(p, k, cfg);
  }

  /** What a poll samples, told by the strings that are active after it. */
  lemma SampledByActive(s: Shares, p: Poll, k: Key, cfg: Config)
    ensures
      var active := Record(s, p, cfg).active;
      k in Sampled(s, p, cfg) <==>
        && Producing(p, cfg) && Readable(p, k, cfg) && k in active
        && exists j :: j != k && Readable(p, j, cfg) && j in active
  {
    hide Producing, Meaningful, Powers, RawShares, Record, Readable, Watts, AllWatts, Sampled, Among;
    if Producing(p, cfg) {
      SampledMap(s, p, cfg);
      var raw, active := RawShares(Powers(p, cfg)), Record(s, p, cfg).active;
      forall j ensures j in Among(raw, active) <==> Readable(p, j, cfg) && j in active {
        AmongActive(s, p, j, cfg);
      }
      AnotherKey(Among(raw, active), k);
    } else {
      NothingSampled(s, p, cfg);
    }
  }

  /** The share sampled, times the power of all strings, is the string's power. */
  lemma SampledShareIs(s: Shares, p: Poll, k: Key, cfg: Config)
    requires k in Sampled(s, p, cfg)
    ensures Sampled(s, p, cfg)[k] * AllWatts(p, cfg) == Watts(p, k, cfg)
  {
    hide Producing, Meaningful, Powers, RawShares, Record, Readable, Watts, AllWatts, Sampled, Among;
    SampledByActive(s, p, k, cfg);
    SampledMap(s, p, cfg);
    AmongActive(s, p, k, cfg);
    RawShareIs(p, k, cfg);
  }

  /** Which poll samples which string, and the share it records: times the power of all strings it
      is the power of this one. */
  lemma SampledIsCounted(polls: seq<Poll>, k: Key, cfg: Config)
    requires polls != []
    ensures Samples(NO_SHARES, polls, k, cfg) <==> Counts(polls, k, cfg)
    ensures Samples(NO_SHARES, polls, k, cfg) ==>
      var p := polls[|polls| - 1];
      LastShare(NO_SHARES, polls, k, cfg) * AllWatts(p, cfg) == Watts(p, k, cfg)
  {
    hide Sampled, Record, Readable, Producing, HasProduced, Watts, AllWatts;
    var m := |polls| - 1;
    SampledByActive(After(NO_SHARES, polls[..m], cfg), polls[m], k, cfg);
    if Samples(NO_SHARES, polls, k, cfg) {
      SampledShareIs(After(NO_SHARES, polls[..m], cfg), polls[m], k, cfg);
    }
    assert After(NO_SHARES, polls, cfg) == Record(After(NO_SHARES, polls[..m], cfg), polls[m], cfg);
    hide After;
    forall j ensures j in After(NO_SHARES, polls, cfg).active <==> HasProduced(polls, j, cfg) {
      ActiveIsProduced(polls, j, cfg);
    }
  }

  // ---------- runs in two parts ----------

  lemma {:induction false} AfterParts(s: Shares, a: seq<Poll>, b: seq<Poll>, cfg: Config)
    ensures After(s, a + b, cfg) == After(After(s, a, cfg), b, cfg)
  {
    hide Record;
    if b == [] {
      assert a + b == a;
    } else {
      var m := |b| - 1;
      assert (a + b)[..|a| + m] == a + b[..m];
      AfterParts(s, a, b[..m], cfg);
    }
  }

  lemma SamplesParts(s: Shares, a: seq<Poll>, b: seq<Poll>, k: Key, cfg: Config)
    requires b != []
    ensures Samples(s, a + b, k, cfg) <==> Samples(After(s, a, cfg), b, k, cfg)
    ensures Samples(s, a + b, k, cfg) ==>
      LastShare(s, a + b, k, cfg) == LastShare(After(s, a, cfg), b, k, cfg)
  {
    hide Sampled;
    var m := |b| - 1;
    assert (a + b)[..|a + b| - 1] == a + b[..m];
    AfterParts(s, a, b[..m], cfg);
  }

  lemma {:induction false} CountParts(s: Shares, a: seq<Poll>, b: seq<Poll>, k: Key, cfg: Config)
    ensures SampledCount(s, a + b, k, cfg) == SampledCount(s, a, k, cfg) + SampledCount(After(s, a, cfg), b, k, cfg)
  {
    hide After, Samples;
    if b == [] {
      assert a + b == a;
    } else {
      var m := |b| - 1;
      assert (a + b)[..|a + b| - 1] == a + b[..m];
      CountParts(s, a, b[..m], k, cfg);
      SamplesParts(s, a, b, k, cfg);
    }
  }

  /** How many polls have sampled the string. */
  ghost function SampledPolls(polls: seq<Poll>, k: Key, cfg: Config): nat {
    if polls == [] then 0
    else SampledPolls(polls[..|polls| - 1], k, cfg) + if Counts(polls, k, cfg) then 1 else 0
  }

  lemma {:induction false} SampledPollsCounted(polls: seq<Poll>, k: Key, cfg: Config)
    ensures SampledPolls(polls, k, cfg) == SampledCount(NO_SHARES, polls, k, cfg)
  {
    hide Counts, Samples;
    if polls != [] {
      SampledPollsCounted(polls[..|polls| - 1], k, cfg);
      SampledIsCounted(polls, k, cfg);
    }
  }

  /** From the m-th poll on, string k has between lo and hi of the power whenever it is sampled. */
  ghost predicate Holds(polls: seq<Poll>, m: nat, k: Key, cfg: Config, lo: real, hi: real) {
    forall i :: m <= i < |polls| && Counts(polls[..i + 1], k, cfg) ==>
      lo * AllWatts(polls[i], cfg) <= Watts(polls[i], k, cfg) <= hi * AllWatts(polls[i], cfg)
  }

  lemma Scales(x: real, y: real, total: real)
    requires total > 0.0
    ensures x * total <= y * total <==> x <= y
  {
    assert (y - x) * total == y * total - x * total;
    if x <= y { Nonnegative(y - x, total); } else { Negative(y - x, total); }
  }

  lemma ShareWithin(share: real, watts: real, total: real, lo: real, hi: real)
    requires total >= 200.0 && share * total == watts && lo * total <= watts <= hi * total
    ensures lo <= share <= hi
  {
    Scales(lo, share, total);
    Scales(share, hi, total);
  }

  lemma HoldsBefore(polls: seq<Poll>, m: nat, k: Key, cfg: Config, lo: real, hi: real)
    requires polls != [] && Holds(polls, m, k, cfg, lo, hi)
    ensures Holds(polls[..|polls| - 1], m, k, cfg, lo, hi)
  {
    hide Counts, Watts, AllWatts;
    var front := polls[..|polls| - 1];
    forall i | m <= i < |front| && Counts(front[..i + 1], k, cfg)
      ensures lo * AllWatts(front[i], cfg) <= Watts(front[i], k, cfg) <= hi * AllWatts(front[i], cfg)
    {
      assert front[..i + 1] == polls[..i + 1] && front[i] == polls[i];
    }
  }

  lemma {:induction false} HeldIsStuck(before: seq<Poll>, later: seq<Poll>, k: Key, cfg: Config, lo: real, hi: real)
    requires Holds(before + later, |before|, k, cfg, lo, hi)
    ensures StuckIn(After(NO_SHARES, before, cfg), later, k, cfg, lo, hi)
    decreases |later|
  {
    hide Samples, LastShare, After, Watts, AllWatts, Counts;
    if later != [] {
      var m := |later| - 1;
      var all := before + later;
      assert all[..|all| - 1] == before + later[..m] && all[..|all|] == all;
      HoldsBefore(all, |before|, k, cfg, lo, hi);
      HeldIsStuck(before, later[..m], k, cfg, lo, hi);
      SamplesParts(NO_SHARES, before, later, k, cfg);
      SampledIsCounted(all, k, cfg);
      if Samples(NO_SHARES, all, k, cfg) {
        var p := all[|all| - 1];
        assert all[..|all| - 1 + 1] == all;
        ProducingPower(all, k, cfg);
        ShareWithin(LastShare(NO_SHARES, all, k, cfg), Watts(p, k, cfg), AllWatts(p, cfg), lo, hi);
      }
    }
  }

  lemma ProducingPower(polls: seq<Poll>, k: Key, cfg: Config)
    requires polls != [] && Counts(polls, k, cfg)
    ensures AllWatts(polls[|polls| - 1], cfg) >= 200.0
  {}

  /** Shorter than its bound in every run from an empty monitor. */
  lemma ShortIsBounded(polls: seq<Poll>, k: Key, cfg: Config)
    ensures |WindowOf(After(NO_SHARES, polls, cfg).short, k)| <= SHORT_MAXLEN
  {
    CollapsedSharesAreNeverLearned(polls, k, cfg);
  }

  /** A string that has produced and then has at most d of the power, d below two per cent, is
      reported as collapsed once 31 polls have sampled it so; in particular one that reads 0 W. */
  lemma DeadStringIsListed(before: seq<Poll>, later: seq<Poll>, k: Key, cfg: Config, d: real)
    requires Holds(before + later, |before|, k, cfg, 0.0, d) && d < 0.02
    requires SampledPolls(before + later, k, cfg) - SampledPolls(before, k, cfg) >= 31
    ensures Collapsed(After(NO_SHARES, before + later, cfg), k)
  {
    hide Counts, Holds, StuckIn, Collapsed;
    SampledPollsCounted(before + later, k, cfg);
    SampledPollsCounted(before, k, cfg);
    CountParts(NO_SHARES, before, later, k, cfg);
    AfterParts(NO_SHARES, before, later, cfg);
    HeldIsStuck(before, later, k, cfg, 0.0, d);
    ShortIsBounded(before, k, cfg);
    DeadStringIsReported(After(NO_SHARES, before, cfg), later, k, cfg, d);
  }

  /** A string with at least two per cent of the power is not, so never one with half of it. */
  lemma LiveStringIsNotListed(before: seq<Poll>, later: seq<Poll>, k: Key, cfg: Config)
    requires Holds(before + later, |before|, k, cfg, 0.02, 1.0)
    requires SampledPolls(before + later, k, cfg) - SampledPolls(before, k, cfg) >= 31
    ensures !Collapsed(After(NO_SHARES, before + later, cfg), k)
  {
    hide Counts, Holds, StuckIn, After, Median, CountIn;
    SampledPollsCounted(before + later, k, cfg);
    SampledPollsCounted(before, k, cfg);
    CountParts(NO_SHARES, before, later, k, cfg);
    AfterParts(NO_SHARES, before, later, cfg);
    HeldIsStuck(before, later, k, cfg, 0.02, 1.0);
    ShortIsBounded(before, k, cfg);
    var s := After(NO_SHARES, before, cfg);
    ShortRun(s, later, k, cfg, 0.02, 1.0);
    var short, n := WindowOf(After(s, later, cfg).short, k), Min(SampledCount(s, later, k, cfg), SHORT_MAXLEN);
    MostlyWithin(short, n, 0.02, 1.0);
    MajorityHoldsMedian(short, 0.02, 1.0);
  }

  lemma MostlyWithin(short: seq<real>, n: nat, lo: real, hi: real)
    requires 31 <= n <= |short| <= SHORT_MAXLEN
    requires forall i :: |short| - n <= i < |short| ==> lo <= short[i] <= hi
    ensures 2 * CountIn(short, lo, hi) > |short|
  {
    var m := |short| - n;
    assert short == short[..m] + short[m..];
    CountAppend(short[..m], short[m..], lo, hi);
    CountAll(short[m..], lo, hi);
  }

  function ShareOf(polls: seq<Poll>, k: Key, cfg: Config): real
    requires polls != []
  {
    if Samples(NO_SHARES, polls, k, cfg) then LastShare(NO_SHARES, polls, k, cfg) else 0.0
  }

  lemma ShareTimes(polls: seq<Poll>, k: Key, cfg: Config)
    requires polls != [] && (Readable(polls[|polls| - 1], k, cfg) ==> Counts(polls, k, cfg))
    ensures ShareOf(polls, k, cfg) * AllWatts(polls[|polls| - 1], cfg) == Watts(polls[|polls| - 1], k, cfg)
  {
    hide Samples, LastShare, AllWatts, Counts;
    SampledIsCounted(polls, k, cfg);
  }

  lemma SumOfShares(x: real, y: real, z: real, total: real, a: real, b: real, c: real)
    requires total > 0.0 && x * total == a && y * total == b && z * total == c && a + b + c == total
    ensures x + y + z == 1.0
  {
    var u := x + y + z - 1.0;
    assert u * total == x * total + y * total + z * total - total;
  }

  /** When every readable string is sampled the shares of a poll add up to the whole. */
  lemma SharesAddUp(polls: seq<Poll>, cfg: Config)
    requires polls != [] && Producing(polls[|polls| - 1], cfg)
    requires forall k :: Readable(polls[|polls| - 1], k, cfg) ==> Counts(polls, k, cfg)
    ensures ShareOf(polls, DC1, cfg) + ShareOf(polls, DC2, cfg) + ShareOf(polls, DC3, cfg) == 1.0
  {
    hide ShareOf, Counts, Watts, Readable;
    var p := polls[|polls| - 1];
    ShareTimes(polls, DC1, cfg);
    ShareTimes(polls, DC2, cfg);
    ShareTimes(polls, DC3, cfg);
    assert AllWatts(p, cfg) >= 200.0;
    assert AllWatts(p, cfg) == Watts(p, DC1, cfg) + Watts(p, DC2, cfg) + Watts(p, DC3, cfg);
    hide AllWatts, Producing;
    SumOfShares(ShareOf(polls, DC1, cfg), ShareOf(polls, DC2, cfg), ShareOf(polls, DC3, cfg), AllWatts(p, cfg),
                Watts(p, DC1, cfg), Watts(p, DC2, cfg), Watts(p, DC3, cfg));
  }

  // ---------- a fault after healthy operation ----------

  /** Whenever string k is sampled, every sampled string has at least two per cent of the power. */
  ghost predicate NoneDead(polls: seq<Poll>, k: Key, cfg: Config) {
    forall i, j :: 0 <= i < |polls| && Counts(polls[..i + 1], k, cfg) && Counts(polls[..i + 1], j, cfg) ==>
      Watts(polls[i], j, cfg) >= 0.02 * AllWatts(polls[i], cfg)
  }

  lemma NoneDeadBefore(polls: seq<Poll>, k: Key, cfg: Config)
    requires polls != [] && NoneDead(polls, k, cfg)
    ensures NoneDead(polls[..|polls| - 1], k, cfg)
  {
    hide Counts, Watts, AllWatts;
    var front := polls[..|polls| - 1];
    forall i, j | 0 <= i < |front| && Counts(front[..i + 1], k, cfg) && Counts(front[..i + 1], j, cfg)
      ensures Watts(front[i], j, cfg) >= 0.02 * AllWatts(front[i], cfg)
    {
      assert front[..i + 1] == polls[..i + 1] && front[i] == polls[i];
    }
  }

  lemma SampledIsAlive(polls: seq<Poll>, k: Key, j: Key, cfg: Config)
    requires polls != [] && NoneDead(polls, k, cfg)
    requires Samples(NO_SHARES, polls, k, cfg) && Samples(NO_SHARES, polls, j, cfg)
    ensures LastShare(NO_SHARES, polls, j, cfg) >= 0.02
  {
    hide After, Samples, LastShare, Counts, Watts, AllWatts;
    var m := |polls| - 1;
    SampledIsCounted(polls, k, cfg);
    SampledIsCounted(polls, j, cfg);
    ProducingPower(polls, k, cfg);
    assert polls[..m + 1] == polls;
    Scales(0.02, LastShare(NO_SHARES, polls, j, cfg), AllWatts(polls[m], cfg));
  }

  lemma LastNotSuspect(polls: seq<Poll>, k: Key, cfg: Config)
    requires polls != [] && NoneDead(polls, k, cfg) && Samples(NO_SHARES, polls, k, cfg)
    ensures !Suspect(Sampled(After(NO_SHARES, polls[..|polls| - 1], cfg), polls[|polls| - 1], cfg))
  {
    hide After, Sampled, Counts, Watts, AllWatts, NoneDead;
    var m := |polls| - 1;
    var shares := Sampled(After(NO_SHARES, polls[..m], cfg), polls[m], cfg);
    forall j | j in shares ensures shares[j] >= 0.02 {
      SampledIsAlive(polls, k, j, cfg);
    }
  }

  lemma {:induction false} HeldIsHealthy(polls: seq<Poll>, k: Key, cfg: Config, a: real, b: real)
    requires Holds(polls, 0, k, cfg, a, b) && NoneDead(polls, k, cfg)
    ensures Healthy(polls, k, cfg, a, b)
  {
    hide Samples, LastShare, After, Watts, AllWatts, Counts, Suspect, Sampled;
    if polls != [] {
      var m := |polls| - 1;
      assert polls[..m + 1] == polls;
      HoldsBefore(polls, 0, k, cfg, a, b);
      NoneDeadBefore(polls, k, cfg);
      HeldIsHealthy(polls[..m], k, cfg, a, b);
      SampledIsCounted(polls, k, cfg);
      if Samples(NO_SHARES, polls, k, cfg) {
        LastNotSuspect(polls, k, cfg);
        ProducingPower(polls, k, cfg);
        ShareWithin(LastShare(NO_SHARES, polls, k, cfg), Watts(polls[m], k, cfg), AllWatts(polls[m], cfg), a, b);
      }
    }
  }

  /** From an empty monitor: after healthy operation that kept a string's part of the power in an
      interval no wider than 20 points, any fault that keeps it more than 20 points outside leaves
      the learned median in that interval, however long it lasts, and from its 31st sample on the
      string is judged to deviate by the distance in points, more than 20. */
  lemma FaultAfterHealth(before: seq<Poll>, later: seq<Poll>, k: Key, cfg: Config,
                         a: real, b: real, c: real, d: real)
    requires Holds(before, 0, k, cfg, a, b) && NoneDead(before, k, cfg) && b - a <= 0.2
    requires 31 <= SampledPolls(before, k, cfg) && cfg.minSamples <= Min(SampledPolls(before, k, cfg), LONG_MAXLEN)
    requires Holds(before + later, |before|, k, cfg, c, d) && (c > b + 0.2 || d < a - 0.2)
    ensures
      var t := After(NO_SHARES, before + later, cfg);
      && k in t.long && t.long[k] != [] && a <= Median(t.long[k]) <= b
      && (SampledPolls(before + later, k, cfg) - SampledPolls(before, k, cfg) >= 31 ==>
            Judged(t, k, cfg) && Off(DeviationOf(t, k, cfg), a, b, c, d))
  {
    hide Counts, Holds, NoneDead, StuckIn, Healthy, After, Median, Learned;
    HeldIsHealthy(before, k, cfg, a, b);
    SampledPollsCounted(before, k, cfg);
    SampledPollsCounted(before + later, k, cfg);
    HealthyRunLearns(before, k, cfg, a, b);
    HeldIsStuck(before, later, k, cfg, c, d);
    CountParts(NO_SHARES, before, later, k, cfg);
    AfterParts(NO_SHARES, before, later, cfg);
    SustainedFaultIsNotLearned(After(NO_SHARES, before, cfg), later, k, cfg, a, b, c, d);
  }
}
