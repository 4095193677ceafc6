/** Learning each PV string's share of the DC power (health_monitor.py): a long window learns the
    pattern, a short one holds the present, and learning freezes while the two disagree. */
module DcShareBaseline {
  import opened Basics
  import opened Registers
  import opened Windows

  const LONG_MAXLEN := 17280
  const SHORT_MAXLEN := 60
  const MIN_TOTAL_W := 200.0
  const FREEZE_THRESHOLD := 0.20
  const COLLAPSE_FLOOR := 0.02
  const ACTIVITY_FLOOR := 0.05
  const MIN_SHORT := 5

  datatype Key = DC1 | DC2 | DC3

  datatype Config = Config(numBidirectional: nat, minSamples: nat)

  /** The windows and the strings that have produced this session. */
  datatype Shares = Shares(active: set<Key>, long: map<Key, seq<real>>, short: map<Key, seq<real>>)

  const NO_SHARES := Shares({}, map[], map[])

  /** `deque(maxlen)`: a full queue drops its oldest entry. */
  function Push(q: seq<real>, x: real, maxlen: nat): (r: seq<real>)
    requires maxlen > 0
    ensures |q| <= maxlen ==> |r| <= maxlen
  {
    if |q| < maxlen then q + [x] else q[1..] + [x]
  }

  function WindowOf(m: map<Key, seq<real>>, k: Key): seq<real> {
    if k in m then m[k] else []
  }

  // ---------- one poll ----------

  /** The readable, clipped string powers; with a battery on DC3 that input is no string. */
  function Powers(data: map<Key, real>, cfg: Config): map<Key, real> {
    map k | k in data && (k == DC3 ==> cfg.numBidirectional < 1) :: if data[k] > 0.0 then data[k] else 0.0
  }

  function PowerOf(powers: map<Key, real>, k: Key): real {
    if k in powers then powers[k] else 0.0
  }

  function Total(powers: map<Key, real>): real {
    PowerOf(powers, DC1) + PowerOf(powers, DC2) + PowerOf(powers, DC3)
  }

  predicate Meaningful(powers: map<Key, real>) {
    |powers| >= 2 && Total(powers) >= MIN_TOTAL_W
  }

  /** Every readable string's share. */
  function RawShares(powers: map<Key, real>): map<Key, real>
    requires Meaningful(powers)
  {
    map k | k in powers :: powers[k] / Total(powers)
  }

  function ActiveAfter(active: set<Key>, shares: map<Key, real>): set<Key> {
    active + set k | k in shares && shares[k] >= ACTIVITY_FLOOR
  }

  function Among(shares: map<Key, real>, active: set<Key>): map<Key, real> {
    map k | k in shares && k in active :: shares[k]
  }

  /** The shares this poll samples: strings that have produced, if at least two have. */
  function Sampled(s: Shares, data: map<Key, real>, cfg: Config): map<Key, real> {
    var powers := Powers(data, cfg);
    if !Meaningful(powers) then map[]
    else
      var raw := RawShares(powers);
      var active := ActiveAfter(s.active, raw);
      var kept := Among(raw, active);
      if |kept| < 2 then map[] else kept
  }

  predicate Suspect(shares: map<Key, real>) {
    exists k :: k in shares && shares[k] < COLLAPSE_FLOOR
  }

  /** The baseline is not trained while the recent median is this far off. */
  predicate Frozen(long: seq<real>, short: seq<real>, cfg: Config) {
    && |long| >= cfg.minSamples && |short| >= MIN_SHORT && long != []
    && Abs(Median(short) - Median(long)) > FREEZE_THRESHOLD
  }

  function LongAfter(long: seq<real>, short: seq<real>, share: real, suspect: bool, cfg: Config): seq<real> {
    if suspect || Frozen(long, short, cfg) then long else Push(long, share, LONG_MAXLEN)
  }

  /** `_record_dc_shares`. */
  function Record(s: Shares, data: map<Key, real>, cfg: Config): Shares {
    var powers := Powers(data, cfg);
    if !Meaningful(powers) then s
    else
      var active := ActiveAfter(s.active, RawShares(powers));
      var shares := Sampled(s, data, cfg);
      var suspect := Suspect(shares);
      var short := map k | k in s.short.Keys + shares.Keys ::
        if k in shares then Push(WindowOf(s.short, k), shares[k], SHORT_MAXLEN) else s.short[k];
      Shares(active,
             map k | k in s.long.Keys + shares.Keys ::
               if k in shares then LongAfter(WindowOf(s.long, k), short[k], shares[k], suspect, cfg) else s.long[k],
             short)
  }

  /** What `dc_string_baseline_deviation` computes for one string, in percentage points. */
  function DeviationOf(s: Shares, k: Key, cfg: Config): (r: real)
    requires Judged(s, k, cfg)
  {
    Abs(Median(s.short[k]) - Median(s.long[k])) * 100.0
  }

  predicate Judged(s: Shares, k: Key, cfg: Config) {
    k in s.long && k in s.short && |s.long[k]| >= cfg.minSamples && s.long[k] != [] && |s.short[k]| >= MIN_SHORT
  }

  // ---------- a sustained fault ----------

  /** The state after a series of polls. */
  function After(s: Shares, polls: seq<map<Key, real>>, cfg: Config): Shares {
    if polls == [] then s else Record(After(s, polls[..|polls| - 1], cfg), polls[|polls| - 1], cfg)
  }

  /** The share the last poll sampled for string k, if it sampled one. */
  predicate Samples(s: Shares, polls: seq<map<Key, real>>, k: Key, cfg: Config)
    requires polls != []
  {
    k in Sampled(After(s, polls[..|polls| - 1], cfg), polls[|polls| - 1], cfg)
  }

  function LastShare(s: Shares, polls: seq<map<Key, real>>, k: Key, cfg: Config): real
    requires polls != [] && Samples(s, polls, k, cfg)
  {
    Sampled(After(s, polls[..|polls| - 1], cfg), polls[|polls| - 1], cfg)[k]
  }

  /** The last poll's share of string k entered its long window. */
  predicate Learns(s: Shares, polls: seq<map<Key, real>>, k: Key, cfg: Config)
    requires polls != []
  {
    && Samples(s, polls, k, cfg)
    && var before := After(s, polls[..|polls| - 1], cfg);
       var shares := Sampled(before, polls[|polls| - 1], cfg);
       !Suspect(shares) && !Frozen(WindowOf(before.long, k), WindowOf(After(s, polls, cfg).short, k), cfg)
  }

  /** How many of the polls sampled string k. */
  function SampledCount(s: Shares, polls: seq<map<Key, real>>, k: Key, cfg: Config): nat {
    if polls == [] then 0
    else SampledCount(s, polls[..|polls| - 1], k, cfg) + if Samples(s, polls, k, cfg) then 1 else 0
  }

  /** How many of them were learned. */
  function LearnedCount(s: Shares, polls: seq<map<Key, real>>, k: Key, cfg: Config): nat {
    if polls == [] then 0
    else LearnedCount(s, polls[..|polls| - 1], k, cfg) + if Learns(s, polls, k, cfg) then 1 else 0
  }

  /** Every sampled share of string k lies in [c, d]. */
  ghost predicate StuckIn(s: Shares, polls: seq<map<Key, real>>, k: Key, cfg: Config, c: real, d: real) {
    polls == [] || (StuckIn(s, polls[..|polls| - 1], k, cfg, c, d)
                    && (Samples(s, polls, k, cfg) ==> c <= LastShare(s, polls, k, cfg) <= d))
  }

  /** [c, d] lies more than 20 points above or below [a, b]. */
  predicate Apart(a: real, b: real, c: real, d: real) {
    c > b + FREEZE_THRESHOLD || d < a - FREEZE_THRESHOLD
  }

  /** A baseline learned from shares in [a, b] only. */
  ghost predicate Learned(s: Shares, k: Key, cfg: Config, a: real, b: real) {
    && k in s.long && cfg.minSamples <= |s.long[k]| <= LONG_MAXLEN && |s.long[k]| >= 31
    && (forall i :: 0 <= i < |s.long[k]| ==> a <= s.long[k][i] <= b)
    && |WindowOf(s.short, k)| <= SHORT_MAXLEN
  }

  function Min(x: nat, y: nat): nat { if x < y then x else y }

  /** The windows of one string after n faulty samples, f of which were learned: the normal
      samples are still the majority of the long window, the faulty ones end the short one. */
  ghost predicate Faulty(long: seq<real>, short: seq<real>, n: nat, f: nat, cfg: Config,
                         a: real, b: real, c: real, d: real) {
    && cfg.minSamples <= |long| <= LONG_MAXLEN && f <= Min(n, 30)
    && CountIn(long, a, b) >= 31 && |long| - CountIn(long, a, b) <= f
    && |short| <= SHORT_MAXLEN && Min(n, SHORT_MAXLEN) <= |short|
    && forall i :: |short| - Min(n, SHORT_MAXLEN) <= i < |short| ==> c <= short[i] <= d
  }

  lemma ShortAfterFault(short: seq<real>, x: real, n: nat, c: real, d: real)
    requires |short| <= SHORT_MAXLEN && Min(n, SHORT_MAXLEN) <= |short| && c <= x <= d
    requires forall i :: |short| - Min(n, SHORT_MAXLEN) <= i < |short| ==> c <= short[i] <= d
    ensures
      var r := Push(short, x, SHORT_MAXLEN);
      && |r| <= SHORT_MAXLEN && Min(n + 1, SHORT_MAXLEN) <= |r|
      && forall i :: |r| - Min(n + 1, SHORT_MAXLEN) <= i < |r| ==> c <= r[i] <= d
  {}

  /** From the 31st faulty sample on, the short median has moved and the long one has not. */
  lemma MediansApart(long: seq<real>, short: seq<real>, n: nat, f: nat, cfg: Config,
                     a: real, b: real, c: real, d: real)
    requires Faulty(long, short, n, f, cfg, a, b, c, d) && n >= 31
    ensures c <= Median(short) <= d && a <= Median(long) <= b
  {
    var m := |short| - Min(n, SHORT_MAXLEN);
    assert short == short[..m] + short[m..];
    CountAppend(short[..m], short[m..], c, d);
    CountAll(short[m..], c, d);
    MajorityHoldsMedian(short, c, d);
    MajorityHoldsMedian(long, a, b);
  }

  lemma LongAfterFault(long: seq<real>, x: real, f: nat, a: real, b: real)
    requires |long| <= LONG_MAXLEN && f <= 29
    requires CountIn(long, a, b) >= 31 && |long| - CountIn(long, a, b) <= f
    ensures
      var r := Push(long, x, LONG_MAXLEN);
      |r| >= |long| && |r| <= LONG_MAXLEN && CountIn(r, a, b) >= 31 && |r| - CountIn(r, a, b) <= f + 1
  {
    var kept := if |long| < LONG_MAXLEN then long else long[1..];
    if |long| == LONG_MAXLEN {
      assert long == long[..1] + long[1..];
      CountAppend(long[..1], long[1..], a, b);
    }
    CountAppend(kept, [x], a, b);
  }

  lemma FaultStep(long: seq<real>, short: seq<real>, x: real, suspect: bool, n: nat, f: nat, cfg: Config,
                  a: real, b: real, c: real, d: real)
    requires Faulty(long, short, n, f, cfg, a, b, c, d) && c <= x <= d && Apart(a, b, c, d)
    ensures
      var short' := Push(short, x, SHORT_MAXLEN);
      var learns := !suspect && !Frozen(long, short', cfg);
      Faulty(LongAfter(long, short', x, suspect, cfg), short', n + 1, f + (if learns then 1 else 0), cfg, a, b, c, d)
  {
    var short' := Push(short, x, SHORT_MAXLEN);
    ShortAfterFault(short, x, n, c, d);
    if n >= 30 {
      assert Faulty(long, short', n + 1, f, cfg, a, b, c, d);
      MediansApart(long, short', n + 1, f, cfg, a, b, c, d);
      assert Frozen(long, short', cfg);
    } else if !suspect && !Frozen(long, short', cfg) {
      LongAfterFault(long, x, f, a, b);
    }
  }

  lemma {:induction false} FaultRun(s: Shares, polls: seq<map<Key, real>>, k: Key, cfg: Config,
                                    a: real, b: real, c: real, d: real)
    requires Learned(s, k, cfg, a, b) && Apart(a, b, c, d) && StuckIn(s, polls, k, cfg, c, d)
    ensures
      var t := After(s, polls, cfg);
      && k in t.long
      && Faulty(t.long[k], WindowOf(t.short, k), SampledCount(s, polls, k, cfg), LearnedCount(s, polls, k, cfg),
                cfg, a, b, c, d)
  {
    hide Sampled, Median, Faulty, Frozen, Meaningful;
    if polls == [] {
      CountAll(s.long[k], a, b);
      FaultStart(s.long[k], WindowOf(s.short, k), cfg, a, b, c, d);
    } else {
      var front, data := polls[..|polls| - 1], polls[|polls| - 1];
      FaultRun(s, front, k, cfg, a, b, c, d);
      var u := After(s, front, cfg);
      RecordOne(u, data, k, cfg);
      var shares := Sampled(u, data, cfg);
      if k in shares {
        FaultStep(u.long[k], WindowOf(u.short, k), shares[k], Suspect(shares),
                  SampledCount(s, front, k, cfg), LearnedCount(s, front, k, cfg), cfg, a, b, c, d);
      }
    }
  }

  lemma FaultStart(long: seq<real>, short: seq<real>, cfg: Config, a: real, b: real, c: real, d: real)
    requires cfg.minSamples <= |long| <= LONG_MAXLEN && |long| >= 31
    requires CountIn(long, a, b) == |long| && |short| <= SHORT_MAXLEN
    ensures Faulty(long, short, 0, 0, cfg, a, b, c, d)
  {}

  /** A poll changes the windows of a string only by the sample it takes of it. */
  lemma RecordOne(s: Shares, data: map<Key, real>, k: Key, cfg: Config)
    ensures
      var t, shares := Record(s, data, cfg), Sampled(s, data, cfg);
      if k in shares then
        && k in t.short && k in t.long
        && t.short[k] == Push(WindowOf(s.short, k), shares[k], SHORT_MAXLEN)
        && t.long[k] == LongAfter(WindowOf(s.long, k), t.short[k], shares[k], Suspect(shares), cfg)
      else
        && (k in t.long <==> k in s.long) && (k in t.short <==> k in s.short)
        && WindowOf(t.short, k) == WindowOf(s.short, k) && WindowOf(t.long, k) == WindowOf(s.long, k)
  {
    hide Median;
  }

  /** More than 20 points, and by as much as shares in [c, d] are off those in [a, b]. */
  predicate Off(deviation: real, a: real, b: real, c: real, d: real) {
    && deviation > 20.0
    && (if c > b then 100.0 * (c - b) <= deviation <= 100.0 * (d - a)
        else 100.0 * (a - d) <= deviation <= 100.0 * (b - c))
  }

  /** A sustained fault never becomes the baseline: however long a string's share stays in an
      interval more than 20 points away from everything it learned, at most 30 of its samples are
      ever learned, the learned median stays where it was, and from the 31st sample on the string
      is judged for as long as the fault lasts, its deviation the distance in points, above 20. */
  lemma SustainedFaultIsNotLearned(s: Shares, polls: seq<map<Key, real>>, k: Key, cfg: Config,
                                   a: real, b: real, c: real, d: real)
    requires Learned(s, k, cfg, a, b) && Apart(a, b, c, d) && StuckIn(s, polls, k, cfg, c, d)
    ensures
      var t := After(s, polls, cfg);
      && LearnedCount(s, polls, k, cfg) <= 30
      && k in t.long && t.long[k] != [] && a <= Median(t.long[k]) <= b
      && (SampledCount(s, polls, k, cfg) >= 31 ==>
            Judged(t, k, cfg) && Off(DeviationOf(t, k, cfg), a, b, c, d))
  {
    FaultRun(s, polls, k, cfg, a, b, c, d);
    var t, n, f := After(s, polls, cfg), SampledCount(s, polls, k, cfg), LearnedCount(s, polls, k, cfg);
    MajorityHoldsMedian(t.long[k], a, b);
    if n >= 31 {
      MediansApart(t.long[k], WindowOf(t.short, k), n, f, cfg, a, b, c, d);
    }
  }

  // ---------- healthy operation ----------

  /** Every poll that samples string k finds its share in [a, b] and no string collapsed. */
  ghost predicate Healthy(polls: seq<map<Key, real>>, k: Key, cfg: Config, a: real, b: real) {
    polls == [] || (Healthy(polls[..|polls| - 1], k, cfg, a, b)
                    && (Samples(NO_SHARES, polls, k, cfg) ==>
                          a <= LastShare(NO_SHARES, polls, k, cfg) <= b
                          && !Suspect(Sampled(After(NO_SHARES, polls[..|polls| - 1], cfg), polls[|polls| - 1], cfg))))
  }

  predicate Within(q: seq<real>, a: real, b: real) {
    forall i :: 0 <= i < |q| ==> a <= q[i] <= b
  }

  /** Windows inside an interval no wider than the threshold never freeze each other. */
  lemma NarrowWindowsLearn(long: seq<real>, short: seq<real>, cfg: Config, a: real, b: real)
    requires Within(long, a, b) && Within(short, a, b) && b - a <= FREEZE_THRESHOLD
    ensures !Frozen(long, short, cfg)
  {
    if long != [] && short != [] {
      CountAll(long, a, b);
      CountAll(short, a, b);
      MajorityHoldsMedian(long, a, b);
      MajorityHoldsMedian(short, a, b);
    }
  }

  lemma HealthyStep(long: seq<real>, short: seq<real>, x: real, n: nat, cfg: Config, a: real, b: real)
    requires Within(long, a, b) && Within(short, a, b) && a <= x <= b && b - a <= FREEZE_THRESHOLD
    requires |long| == Min(n, LONG_MAXLEN) && |short| <= SHORT_MAXLEN
    ensures var short' := Push(short, x, SHORT_MAXLEN);
      var long' := LongAfter(long, short', x, false, cfg);
      && !Frozen(long, short', cfg)
      && Within(short', a, b) && |short'| <= SHORT_MAXLEN
      && Within(long', a, b) && |long'| == Min(n + 1, LONG_MAXLEN)
  {
    NarrowWindowsLearn(long, Push(short, x, SHORT_MAXLEN), cfg, a, b);
    hide Frozen;
  }

  /** Both windows of a string hold nothing but healthy shares, the long one all of them. */
  predicate Trained(s: Shares, k: Key, n: nat, a: real, b: real) {
    && |WindowOf(s.long, k)| == Min(n, LONG_MAXLEN) && |WindowOf(s.short, k)| <= SHORT_MAXLEN
    && Within(WindowOf(s.long, k), a, b) && Within(WindowOf(s.short, k), a, b) && (n > 0 ==> k in s.long)
  }

  lemma {:induction false} HealthyRun(polls: seq<map<Key, real>>, k: Key, cfg: Config, a: real, b: real)
    requires Healthy(polls, k, cfg, a, b) && b - a <= FREEZE_THRESHOLD
    ensures LearnedCount(NO_SHARES, polls, k, cfg) == SampledCount(NO_SHARES, polls, k, cfg)
    ensures Trained(After(NO_SHARES, polls, cfg), k, SampledCount(NO_SHARES, polls, k, cfg), a, b)
  {
    hide Sampled, Median, Frozen, Meaningful, Suspect, Record, Within, Push, LongAfter, Min;
    if polls == [] {
      NothingYet(k, a, b);
    } else {
      var front, data := polls[..|polls| - 1], polls[|polls| - 1];
      HealthyRun(front, k, cfg, a, b);
      var u := After(NO_SHARES, front, cfg);
      RecordOne(u, data, k, cfg);
      if k in Sampled(u, data, cfg) {
        HealthyStep(WindowOf(u.long, k), WindowOf(u.short, k), Sampled(u, data, cfg)[k],
                    SampledCount(NO_SHARES, front, k, cfg), cfg, a, b);
      }
    }
  }

  lemma NothingYet(k: Key, a: real, b: real)
    ensures Trained(NO_SHARES, k, 0, a, b)
  {}

  /** In healthy operation every sample is learned, so the baseline a fault is measured against
      is there from the 31st sample on, and the least number of samples required. */
  lemma HealthyRunLearns(polls: seq<map<Key, real>>, k: Key, cfg: Config, a: real, b: real)
    requires Healthy(polls, k, cfg, a, b) && b - a <= FREEZE_THRESHOLD
    ensures var n := SampledCount(NO_SHARES, polls, k, cfg);
      && LearnedCount(NO_SHARES, polls, k, cfg) == n
      && (31 <= n && cfg.minSamples <= Min(n, LONG_MAXLEN) ==> Learned(After(NO_SHARES, polls, cfg), k, cfg, a, b))
  {
    HealthyRun(polls, k, cfg, a, b);
    hide After, SampledCount, LearnedCount, Healthy;
  }

  // ---------- collapsed strings ----------

  /** Collapsed samples never train a baseline: in every run from an empty monitor all learned
      shares, of every string, are at or above the collapse floor, and windows never outgrow
      their bounds. */
  lemma {:induction false} CollapsedSharesAreNeverLearned(polls: seq<map<Key, real>>, k: Key, cfg: Config)
    ensures
      var t := After(NO_SHARES, polls, cfg);
      && |WindowOf(t.long, k)| <= LONG_MAXLEN && |WindowOf(t.short, k)| <= SHORT_MAXLEN
      && forall i :: 0 <= i < |WindowOf(t.long, k)| ==> WindowOf(t.long, k)[i] >= COLLAPSE_FLOOR
  {
    hide Sampled, Median, Frozen, Record;
    if polls != [] {
      var front, data := polls[..|polls| - 1], polls[|polls| - 1];
      CollapsedSharesAreNeverLearned(front, k, cfg);
      RecordOne(After(NO_SHARES, front, cfg), data, k, cfg);
    }
  }

  /** `dc_string_collapsed` lists the string. */
  predicate Collapsed(s: Shares, k: Key) {
    k in s.short && |s.short[k]| >= MIN_SHORT && Median(s.short[k]) < COLLAPSE_FLOOR
  }

  lemma {:induction false} ShortRun(s: Shares, polls: seq<map<Key, real>>, k: Key, cfg: Config, c: real, d: real)
    requires |WindowOf(s.short, k)| <= SHORT_MAXLEN && StuckIn(s, polls, k, cfg, c, d)
    ensures
      var short, n := WindowOf(After(s, polls, cfg).short, k), SampledCount(s, polls, k, cfg);
      && |short| <= SHORT_MAXLEN && Min(n, SHORT_MAXLEN) <= |short|
      && forall i :: |short| - Min(n, SHORT_MAXLEN) <= i < |short| ==> c <= short[i] <= d
  {
    hide Sampled, Median, Frozen, Record;
    if polls != [] {
      var front, data := polls[..|polls| - 1], polls[|polls| - 1];
      ShortRun(s, front, k, cfg, c, d);
      var u := After(s, front, cfg);
      RecordOne(u, data, k, cfg);
      if k in Sampled(u, data, cfg) {
        ShortAfterFault(WindowOf(u.short, k), Sampled(u, data, cfg)[k], SampledCount(s, front, k, cfg), c, d);
      }
    }
  }

  /** A string that died before any baseline was learned is still reported: 31 samples below the
      floor suffice, whatever the windows held. */
  lemma DeadStringIsReported(s: Shares, polls: seq<map<Key, real>>, k: Key, cfg: Config, d: real)
    requires |WindowOf(s.short, k)| <= SHORT_MAXLEN && d < COLLAPSE_FLOOR
    requires StuckIn(s, polls, k, cfg, 0.0, d) && SampledCount(s, polls, k, cfg) >= 31
    ensures Collapsed(After(s, polls, cfg), k)
  {
    ShortRun(s, polls, k, cfg, 0.0, d);
    var short, n := WindowOf(After(s, polls, cfg).short, k), Min(SampledCount(s, polls, k, cfg), SHORT_MAXLEN);
    var m := |short| - n;
    assert short == short[..m] + short[m..];
    CountAppend(short[..m], short[m..], 0.0, d);
    CountAll(short[m..], 0.0, d);
    MajorityHoldsMedian(short, 0.0, d);
  }

  // ---------- the monitor object ----------

  const KEYS: seq<Key> := [DC1, DC2, DC3]

  class HealthMonitor {
    const cfg: Config
    var dcShareActive: set<Key>
    var dcShareLong: map<Key, seq<real>>
    var dcShareShort: map<Key, seq<real>>

    constructor (cfg: Config)
      ensures this.cfg == cfg && State() == NO_SHARES
    {
      this.cfg := cfg;
      dcShareActive, dcShareLong, dcShareShort := {}, map[], map[];
    }

    function State(): Shares
      reads this
    {
      Shares(dcShareActive, dcShareLong, dcShareShort)
    }

    /** The loop body: one string's share enters its windows. */
    method RecordKey(key: Key, share: real, suspect: bool)
      modifies this`dcShareLong, this`dcShareShort
      ensures dcShareShort == old(dcShareShort)[key := Push(WindowOf(old(dcShareShort), key), share, SHORT_MAXLEN)]
      ensures
        var learned := LongAfter(WindowOf(old(dcShareLong), key), dcShareShort[key], share, suspect, cfg);
        dcShareLong == old(dcShareLong)[key := learned]
    {
      hide Frozen;
      var longQ, shortQ := WindowOf(dcShareLong, key), WindowOf(dcShareShort, key);
      dcShareLong := dcShareLong[key := longQ];
      shortQ := Push(shortQ, share, SHORT_MAXLEN);
      dcShareShort := dcShareShort[key := shortQ];
      if suspect || Frozen(longQ, shortQ, cfg) {
        return;
      }
      dcShareLong := dcShareLong[key := Push(longQ, share, LONG_MAXLEN)];
    }

    /** `_record_dc_shares`. */
    method RecordDcShares(data: map<Key, real>)
      modifies this
      ensures State() == Record(old(State()), data, cfg)
    {
      hide LongAfter, Suspect, Record, Sampled, Powers, Meaningful, ActiveAfter, RawShares;
      var powers := Powers(data, cfg);
      ghost var s, t := State(), Record(State(), data, cfg);
      RecordSkips(s, data, cfg);
      if !Meaningful(powers) {
        return;
      }
      var shares := Sampled(State(), data, cfg);
      dcShareActive := ActiveAfter(dcShareActive, RawShares(powers));
      var suspect := Suspect(shares);
      var i := 0;
      while i < |KEYS|
        invariant i <= |KEYS| && dcShareActive == t.active
        invariant forall k :: k in KEYS[..i] ==> SameWindows(State(), t, k)
        invariant forall k :: k in KEYS[i..] ==> SameWindows(State(), s, k)
      {
        var key := KEYS[i];
        ghost var u := State();
        RecordOne(s, data, key, cfg);
        assert KEYS[i..][0] == key;
        assert SameWindows(u, s, key);
        if key in shares {
          RecordKey(key, shares[key], suspect);
        }
        NextKey(u, State(), s, t, i);
        i := i + 1;
      }
      assert KEYS[..i] == KEYS;
      KeysComplete();
      SameShares(State(), t);
    }

    /** `dc_string_baseline_deviation`: the largest deviation among the judged strings. */
    method DcStringBaselineDeviation() returns (r: Option<real>)
      ensures r.None? <==> forall k :: !Judged(State(), k, cfg)
      ensures r.Some? ==> exists k :: Judged(State(), k, cfg) && r.value == DeviationOf(State(), k, cfg)
      ensures forall k :: Judged(State(), k, cfg) ==> r.Some? && r.value >= DeviationOf(State(), k, cfg)
    {
      hide Median;
      r := None;
      var i := 0;
      while i < |KEYS|
        invariant i <= |KEYS|
        invariant r.None? <==> forall k :: k in KEYS[..i] ==> !Judged(State(), k, cfg)
        invariant r.Some? ==> exists k :: Judged(State(), k, cfg) && r.value == DeviationOf(State(), k, cfg)
        invariant forall k :: k in KEYS[..i] && Judged(State(), k, cfg) ==>
          r.Some? && r.value >= DeviationOf(State(), k, cfg)
      {
        var key := KEYS[i];
        assert KEYS[..i + 1] == KEYS[..i] + [key];
        if Judged(State(), key, cfg) {
          var dev := DeviationOf(State(), key, cfg);
          if r.None? || r.value < dev {
            r := Some(dev);
          }
        }
        i := i + 1;
      }
      assert KEYS[..i] == KEYS;
      KeysComplete();
    }

    /** `dc_string_collapsed`: the strings whose recent median lies below two per cent. */
    method DcStringCollapsed() returns (r: seq<Key>)
      ensures forall k :: k in r <==>
        k in State().short && |State().short[k]| >= 5 && Median(State().short[k]) < 0.02
    {
      hide Median;
      r := [];
      var i := 0;
      while i < |KEYS|
        invariant i <= |KEYS|
        invariant forall k :: k in r <==> k in KEYS[..i] && Collapsed(State(), k)
      {
        var key := KEYS[i];
        assert KEYS[..i + 1] == KEYS[..i] + [key];
        if key in dcShareShort && |dcShareShort[key]| >= MIN_SHORT {
          if Median(dcShareShort[key]) < COLLAPSE_FLOOR {
            r := r + [key];
          }
        }
        i := i + 1;
      }
      assert KEYS[..i] == KEYS;
      KeysComplete();
    }
  }

  lemma KeysComplete()
    ensures forall k: Key :: k in KEYS
  {
    forall k: Key ensures k in KEYS {
      match k
      case DC1 => assert KEYS[0] == k;
      case DC2 => assert KEYS[1] == k;
      case DC3 => assert KEYS[2] == k;
    }
  }

  lemma RecordSkips(s: Shares, data: map<Key, real>, cfg: Config)
    ensures !Meaningful(Powers(data, cfg)) ==> Record(s, data, cfg) == s
    ensures Meaningful(Powers(data, cfg)) ==>
      Record(s, data, cfg).active == ActiveAfter(s.active, RawShares(Powers(data, cfg)))
  {}

  ghost predicate SameWindows(s: Shares, t: Shares, k: Key) {
    && (k in s.long <==> k in t.long) && (k in s.long ==> s.long[k] == t.long[k])
    && (k in s.short <==> k in t.short) && (k in s.short ==> s.short[k] == t.short[k])
  }

  /** Key i has reached its new windows and no other key has moved. */
  lemma NextKey(u: Shares, v: Shares, s: Shares, t: Shares, i: nat)
    requires i < |KEYS|
    requires forall k :: k in KEYS[..i] ==> SameWindows(u, t, k)
    requires forall k :: k in KEYS[i..] ==> SameWindows(u, s, k)
    requires SameWindows(v, t, KEYS[i]) && forall k :: k != KEYS[i] ==> SameWindows(u, v, k)
    ensures forall k :: k in KEYS[..i + 1] ==> SameWindows(v, t, k)
    ensures forall k :: k in KEYS[i + 1..] ==> SameWindows(v, s, k)
  {
    assert KEYS[..i + 1] == KEYS[..i] + [KEYS[i]] && KEYS[i..] == [KEYS[i]] + KEYS[i + 1..];
    assert KEYS[i] !in KEYS[i + 1..];
    forall k | k in KEYS[..i + 1] ensures SameWindows(v, t, k) {
      if k != KEYS[i] { assert SameWindows(u, v, k) && SameWindows(u, t, k); }
    }
    forall k | k in KEYS[i + 1..] ensures SameWindows(v, s, k) {
      assert SameWindows(u, v, k) && SameWindows(u, s, k);
    }
  }

  lemma SameShares(s: Shares, t: Shares)
    requires s.active == t.active && forall k :: SameWindows(s, t, k)
    ensures s == t
  {
    forall k: Key
      ensures (k in s.long <==> k in t.long) && (k in s.long ==> s.long[k] == t.long[k])
      ensures (k in s.short <==> k in t.short) && (k in s.short ==> s.short[k] == t.short[k])
    {
      assert SameWindows(s, t, k);
    }
    assert s.long.Keys == t.long.Keys && s.short.Keys == t.short.Keys;
  }
}
