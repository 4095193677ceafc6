/** The battery state of health: baseline, samples, slope and five-year projection
    (battery_soh_calculator.py), and the slope of degradation_tracker.py beside it. */
module BatterySoh {
  import opened Registers
  import opened LeastSquares

  const MAX_SAMPLES := 500
  const SAMPLE_INTERVAL := 10800.0
  const RAISE_FACTOR := 1.005
  const MIN_SAMPLES := 30
  const MIN_AGE := 2592000.0
  const SECONDS_PER_YEAR := 31557600.0
  const MAX_CAPACITY := 10000000.0

  datatype Sample = Sample(kwh: real, wh: real, at: real)

  /** What one Modbus poll offers; a counter that is missing or unusable has no value. */
  datatype Poll = Poll(capacity: Option<real>, discharge: Option<real>, unix: real, monotonic: real)

  datatype Health = Health(baseline: Option<real>, current: Option<real>, samples: seq<Sample>, lastSample: real)

  predicate Accepted(p: Poll) { p.capacity.Some? && 0.0 < p.capacity.value <= MAX_CAPACITY }

  function Keep(samples: seq<Sample>): seq<Sample> {
    if |samples| > MAX_SAMPLES then samples[|samples| - MAX_SAMPLES..] else samples
  }

  /** The reading lifts the baseline: the first one, or one more than half a per cent above. */
  predicate Raises(baseline: Option<real>, c: real) {
    baseline.None? || c > baseline.value * RAISE_FACTOR
  }

  predicate SampleDue(s: Health, p: Poll) {
    s.lastSample == 0.0 || p.monotonic - s.lastSample >= SAMPLE_INTERVAL
  }

  function Taking(p: Poll): Sample
    requires Accepted(p)
  {
    Sample((if p.discharge.Some? then p.discharge.value else 0.0) / 1000.0, p.capacity.value, p.unix)
  }

  /** One update, and whether anything was changed that has to be saved. */
  function Updated(s: Health, p: Poll): (Health, bool) {
    if !Accepted(p) then (s, false)
    else
      var c := p.capacity.value;
      var raised := Raises(s.baseline, c);
      var due := SampleDue(s, p);
      (Health(if raised then Some(c) else s.baseline, Some(c),
              if due then Keep(s.samples + [Taking(p)]) else s.samples,
              if due then p.monotonic else s.lastSample),
       raised || due)
  }

  function After(s: Health, polls: seq<Poll>): Health {
    if polls == [] then s else Updated(After(s, polls[..|polls| - 1]), polls[|polls| - 1]).0
  }

  // ---------- Derived values ----------

  function Kwhs(samples: seq<Sample>): seq<real> { seq(|samples|, i requires 0 <= i < |samples| => samples[i].kwh) }

  function Whs(samples: seq<Sample>): seq<real> { seq(|samples|, i requires 0 <= i < |samples| => samples[i].wh) }

  function Percent(a: real, base: real): real
    requires base != 0.0
  {
    a / base * 100.0
  }

  /** The capacity left after five more years of this throughput. */
  function Left(slope: real, annual: real, current: real): real {
    var lost := -slope * (annual * 5.0);
    if current - lost > 0.0 then current - lost else 0.0
  }

  function SohPct(s: Health): Option<real> {
    if s.baseline.None? || s.current.None? || s.baseline.value <= 0.0 then None
    else Some(Percent(s.current.value, s.baseline.value))
  }

  function Age(samples: seq<Sample>): real
    requires samples != []
  {
    samples[|samples| - 1].at - samples[0].at
  }

  predicate Reliable(s: Health) { |s.samples| >= MIN_SAMPLES && Age(s.samples) >= MIN_AGE }

  function Slope(s: Health): Option<real> {
    if !Reliable(s) then None else RawSlope(Kwhs(s.samples), Whs(s.samples))
  }

  function AnnualThroughput(s: Health): Option<real> {
    if |s.samples| < 2 || Age(s.samples) <= 0.0 then None
    else Some((s.samples[|s.samples| - 1].kwh - s.samples[0].kwh) / Age(s.samples) * SECONDS_PER_YEAR)
  }

  function Projection(s: Health): Option<real> {
    var slope, annual := Slope(s), AnnualThroughput(s);
    if slope.None? || annual.None? || SohPct(s).None? then None
    else if slope.value >= 0.0 then SohPct(s)
    else Some(Percent(Left(slope.value, annual.value, s.current.value), s.baseline.value))
  }

  /** The slope is missing exactly when the gates are closed or the counter never moved. */
  lemma SlopeMissing(s: Health)
    ensures Slope(s).None? <==> !Reliable(s) || AllEqual(Kwhs(s.samples))
  {
    DenominatorVanishes(Kwhs(s.samples));
  }

  /** And it is the slope the degradation tracker's formula gives for the same points. */
  lemma SlopeIsCentred(s: Health)
    requires Reliable(s)
    ensures Slope(s) == CentredSlope(Kwhs(s.samples), Whs(s.samples))
  {
    SlopesAgree(Kwhs(s.samples), Whs(s.samples));
  }

  // ---------- Over whole runs ----------

  /** The current reading never exceeds the baseline by more than half a per cent. */
  predicate Calibrated(s: Health) {
    && |s.samples| <= MAX_SAMPLES
    && (s.current.Some? ==>
      s.baseline.Some? && s.baseline.value > 0.0 && 0.0 < s.current.value <= s.baseline.value * RAISE_FACTOR)
  }

  /** What a restart may load: any baseline and any samples, but no current reading. */
  predicate Loaded(s: Health) { s.current.None? && |s.samples| <= MAX_SAMPLES }

  lemma {:induction false} RunsStayCalibrated(s: Health, polls: seq<Poll>)
    requires Loaded(s)
    ensures Calibrated(After(s, polls))
  {
    if polls != [] {
      RunsStayCalibrated(s, polls[..|polls| - 1]);
    }
  }

  /** The baseline is the loaded one or an accepted reading, never falls, and no accepted reading
      exceeds it by more than half a per cent. */
  lemma {:induction false} BaselineIsTheMaximum(s: Health, polls: seq<Poll>, k: nat)
    requires Loaded(s) && k <= |polls|
    ensures
      var b, early := After(s, polls).baseline, After(s, polls[..k]).baseline;
      && (early.Some? && early.value > 0.0 ==> b.Some? && b.value >= early.value)
      && (k < |polls| && Accepted(polls[k]) ==>
            b.Some? && b.value > 0.0 && polls[k].capacity.value <= b.value * RAISE_FACTOR)
      && (b == s.baseline || exists i :: 0 <= i < |polls| && Accepted(polls[i]) && b == polls[i].capacity)
  {
    if k == |polls| {
      assert polls[..k] == polls;
      BaselineWasRead(s, polls);
    } else {
      var front, m := polls[..|polls| - 1], |polls| - 1;
      RunsStayCalibrated(s, polls);
      RunsStayCalibrated(s, front);
      BaselineWasRead(s, polls);
      if k < m {
        assert front[..k] == polls[..k] && front[k] == polls[k];
        BaselineIsTheMaximum(s, front, k);
      }
      hide Calibrated, After;
      BaselineStep(After(s, front), polls[m]);
      assert After(s, polls) == Updated(After(s, front), polls[m]).0 by { AfterStep(s, polls); }
    }
  }

  lemma AfterStep(s: Health, polls: seq<Poll>)
    requires polls != []
    ensures After(s, polls) == Updated(After(s, polls[..|polls| - 1]), polls[|polls| - 1]).0
  {}

  lemma BaselineStep(s: Health, p: Poll)
    ensures var b := Updated(s, p).0.baseline;
      && (s.baseline.Some? && s.baseline.value > 0.0 ==> b.Some? && b.value >= s.baseline.value)
      && (Accepted(p) ==> b.Some? && b.value > 0.0 && p.capacity.value <= b.value * RAISE_FACTOR)
  {}

  lemma {:induction false} BaselineWasRead(s: Health, polls: seq<Poll>)
    ensures var b := After(s, polls).baseline;
      b == s.baseline || exists i :: 0 <= i < |polls| && Accepted(polls[i]) && b == polls[i].capacity
  {
    if polls != [] {
      var m := |polls| - 1;
      BaselineWasRead(s, polls[..m]);
      assert forall i :: 0 <= i < m ==> polls[..m][i] == polls[i];
      assert After(s, polls).baseline == After(s, polls[..m]).baseline
        || (Accepted(polls[m]) && After(s, polls).baseline == polls[m].capacity);
    }
  }

  /** The samples taken over a run. */
  function Taken(s: Health, polls: seq<Poll>): seq<Sample> {
    if polls == [] then []
    else
      var front, p := polls[..|polls| - 1], polls[|polls| - 1];
      Taken(s, front)
        + if Accepted(p) && SampleDue(After(s, front), p)
          then [Taking(p)] else []
  }

  lemma KeepJoins(a: seq<Sample>, b: seq<Sample>)
    ensures Keep(Keep(a) + b) == Keep(a + b)
  {}

  lemma SamplesStep(s: Health, p: Poll)
    ensures Updated(s, p).0.samples
         == if Accepted(p) && SampleDue(s, p) then Keep(s.samples + [Taking(p)]) else s.samples
  {
    hide Keep, Taking, Raises;
  }

  /** The window is the last 500 of the loaded and the taken samples, in order. */
  lemma {:induction false} WindowIsTheLatest(s: Health, polls: seq<Poll>)
    requires |s.samples| <= MAX_SAMPLES
    ensures After(s, polls).samples == Keep(s.samples + Taken(s, polls))
  {
    if polls == [] {
      assert s.samples + [] == s.samples;
    } else {
      hide Updated, Keep, SampleDue, Accepted, Taking;
      var front, p := polls[..|polls| - 1], polls[|polls| - 1];
      WindowIsTheLatest(s, front);
      SamplesStep(After(s, front), p);
      var before := s.samples + Taken(s, front);
      if Accepted(p) && SampleDue(After(s, front), p) {
        assert s.samples + Taken(s, polls) == before + [Taking(p)];
        KeepJoins(before, [Taking(p)]);
      } else {
        assert Taken(s, polls) == Taken(s, front);
      }
    }
  }

  /** The k-th poll reads a capacity that counts: above nothing and at most ten megawatt-hours. */
  predicate Counts(polls: seq<Poll>, k: nat)
    requires k < |polls|
  {
    polls[k].capacity.Some? && 0.0 < polls[k].capacity.value && polls[k].capacity.value <= 10000000.0
  }

  /** The baseline moves only to a reading more than half a per cent above it, and the present
      capacity is the latest reading that counts. */
  lemma BaselineMovesExactly(s: Health, polls: seq<Poll>, k: nat)
    requires k < |polls|
    ensures
      var before, after := After(s, polls[..k]), After(s, polls[..k + 1]);
      if !Counts(polls, k) then after.baseline == before.baseline && after.current == before.current
      else
        var c := polls[k].capacity;
        && after.current == c
        && after.baseline ==
             if before.baseline.None? || 1000.0 * c.value > 1005.0 * before.baseline.value then c else before.baseline
  {
    assert polls[..k + 1][..k] == polls[..k];
    AfterStep(s, polls[..k + 1]);
    hide After, Keep, SampleDue;
  }

  /** The k-th poll was sampled. */
  predicate Sampled(s: Health, polls: seq<Poll>, k: nat)
    requires k < |polls|
  {
    Accepted(polls[k]) && SampleDue(After(s, polls[..k]), polls[k])
  }

  /** A monotonic clock that has started. */
  predicate Clocked(polls: seq<Poll>) {
    && (forall i :: 0 <= i < |polls| ==> polls[i].monotonic > 0.0)
    && (forall i, j :: 0 <= i < j < |polls| ==> polls[i].monotonic <= polls[j].monotonic)
  }

  lemma {:induction false} LastSampleIs(s: Health, polls: seq<Poll>)
    requires Clocked(polls) && s.lastSample == 0.0
    ensures
      var last := After(s, polls).lastSample;
      && (forall k :: 0 <= k < |polls| && Sampled(s, polls, k) ==> 0.0 < polls[k].monotonic <= last)
      && (last == 0.0 || exists k :: 0 <= k < |polls| && Sampled(s, polls, k) && polls[k].monotonic == last)
  {
    if polls != [] {
      var m := |polls| - 1;
      var front := polls[..m];
      LastSampleIs(s, front);
      forall k | 0 <= k < m ensures Sampled(s, polls, k) <==> Sampled(s, front, k) {
        assert front[..k] == polls[..k];
      }
      AfterStep(s, polls);
      hide After, Keep;
      LastSampleStep(s, polls);
      hide Sampled, Updated;
    }
  }

  lemma LastSampleStep(s: Health, polls: seq<Poll>)
    requires polls != []
    ensures
      var m := |polls| - 1;
      After(s, polls).lastSample
        == if Sampled(s, polls, m) then polls[m].monotonic else After(s, polls[..m]).lastSample
  {
    hide Keep, Raises;
  }

  /** Samples are three hours apart: a poll is sampled exactly if it counts and at least 10800 s have
      passed since every sampled poll before it; the sample holds the counter in kWh, or zero when
      it is missing, the capacity, and the time of day. */
  lemma SampledExactly(s: Health, polls: seq<Poll>, k: nat)
    requires Clocked(polls) && s.lastSample == 0.0 && k < |polls|
    ensures Sampled(s, polls, k) <==>
      Counts(polls, k) && forall j :: 0 <= j < k && Sampled(s, polls, j) ==>
        polls[k].monotonic - polls[j].monotonic >= 10800.0
    ensures Sampled(s, polls, k) ==>
      var x, p := Taking(polls[k]), polls[k];
      && x.wh == p.capacity.value && x.at == p.unix
      && 1000.0 * x.kwh == if p.discharge.Some? then p.discharge.value else 0.0
  {
    LastSampleIs(s, polls[..k]);
    forall j | 0 <= j < k ensures Sampled(s, polls, j) <==> Sampled(s, polls[..k], j) {
      assert polls[..k][..j] == polls[..j];
    }
    hide After, Keep;
  }

  /** An update asks to be saved exactly when it moved the baseline or took a sample. */
  lemma SavedExactly(s: Health, polls: seq<Poll>, k: nat)
    requires k < |polls|
    ensures Updated(After(s, polls[..k]), polls[k]).1 <==>
      Sampled(s, polls, k) || After(s, polls[..k + 1]).baseline != After(s, polls[..k]).baseline
  {
    assert polls[..k + 1][..k] == polls[..k];
    AfterStep(s, polls[..k + 1]);
    hide After, Keep, SampleDue;
  }

  // ---------- The projection ----------

  lemma SignOfProduct(a: real, b: real, p: real)
    requires a > 0.0 && p == a * b
    ensures p >= 0.0 <==> b >= 0.0
  {
    if b > 0.0 {
      Positive(a, b, p);
    } else if b < 0.0 {
      Positive(a, -b, -p);
    }
  }

  lemma SignOfQuotient(a: real, b: real, q: real)
    requires b > 0.0 && q == a / b
    ensures q >= 0.0 <==> a >= 0.0
  {
    assert q * b == a;
    SignOfProduct(b, q, a);
  }

  /** Percentages of one base compare as the amounts do. */
  lemma PercentCompares(a: real, b: real, base: real)
    requires base > 0.0
    ensures Percent(a, base) <= Percent(b, base) <==> a <= b
  {
    var p, q := a / base, b / base;
    assert p * base == a && q * base == b;
    SignOfProduct(base, q - p, b - a);
  }

  lemma PercentOf(base: real, f: real)
    requires base > 0.0
    ensures Percent(base * f, base) == 100.0 * f && Percent(0.0, base) == 0.0
  {
    QuotientIs(base * f, base, f);
    QuotientIs(0.0, base, 0.0);
  }

  lemma LeftBounds(slope: real, annual: real, current: real)
    requires slope < 0.0 && current > 0.0
    ensures Left(slope, annual, current) >= 0.0
    ensures Left(slope, annual, current) <= current <==> annual >= 0.0
  {
    SignOfProduct(-slope, annual * 5.0, -slope * (annual * 5.0));
  }

  lemma AnnualSign(s: Health)
    requires AnnualThroughput(s).Some?
    ensures AnnualThroughput(s).value >= 0.0 <==> s.samples[|s.samples| - 1].kwh >= s.samples[0].kwh
  {
    var d := s.samples[|s.samples| - 1].kwh - s.samples[0].kwh;
    SignOfQuotient(d, Age(s.samples), d / Age(s.samples));
  }

  /** The counter reads at least as much at the end of the window as at its start. */
  predicate CounterRose(s: Health)
    requires s.samples != []
  {
    s.samples[|s.samples| - 1].kwh >= s.samples[0].kwh
  }

  lemma PercentTimes(a: real, base: real)
    requires base > 0.0
    ensures Percent(a, base) * base == 100.0 * a
  {
    var p := a / base;
    assert p * base == a;
    assert (p * 100.0) * base == 100.0 * (p * base);
  }

  /** The throughput a year is that of the window: as many kWh as there were, for 31557600 seconds
      instead of the window's. */
  lemma AnnualIsPaced(s: Health)
    ensures AnnualThroughput(s).Some? <==>
      |s.samples| >= 2 && s.samples[|s.samples| - 1].at > s.samples[0].at
    ensures AnnualThroughput(s).Some? ==>
      var first, last := s.samples[0], s.samples[|s.samples| - 1];
      AnnualThroughput(s).value * (last.at - first.at) == (last.kwh - first.kwh) * 31557600.0
  {
    if AnnualThroughput(s).Some? {
      var first, last := s.samples[0], s.samples[|s.samples| - 1];
      var rate := (last.kwh - first.kwh) / (last.at - first.at);
      assert rate * (last.at - first.at) == last.kwh - first.kwh;
      assert rate * 31557600.0 * (last.at - first.at) == rate * (last.at - first.at) * 31557600.0;
    }
  }

  /** The projection takes at least 30 samples over at least 30 days, a counter that moved and a
      state of health; it is the state of health while the slope is not negative, and otherwise the
      percentage left after five years at this pace, not below zero. */
  lemma ProjectionExactly(s: Health)
    requires Calibrated(s)
    ensures SohPct(s).Some? <==> s.current.Some?
    ensures SohPct(s).Some? ==> SohPct(s).value * s.baseline.value == 100.0 * s.current.value
    ensures Projection(s).Some? <==>
      && s.current.Some? && |s.samples| >= 30 && !AllEqual(Kwhs(s.samples))
      && s.samples[|s.samples| - 1].at - s.samples[0].at >= 2592000.0
    ensures Projection(s).Some? && Slope(s).value >= 0.0 ==> Projection(s) == SohPct(s)
    ensures Projection(s).Some? && Slope(s).value < 0.0 ==>
      var left := s.current.value + Slope(s).value * (AnnualThroughput(s).value * 5.0);
      Projection(s).value * s.baseline.value == 100.0 * (if left > 0.0 then left else 0.0)
  {
    SlopeMissing(s);
    if s.current.Some? {
      PercentTimes(s.current.value, s.baseline.value);
      if Projection(s).Some? {
        var slope, annual, current := Slope(s).value, AnnualThroughput(s).value, s.current.value;
        LeftIs(slope, annual, current);
        PercentTimes(Left(slope, annual, current), s.baseline.value);
      }
    }
    hide Percent, Left, Kwhs, Whs, RawSlope, AllEqual;
  }

  lemma LeftIs(slope: real, annual: real, current: real)
    ensures
      var left := current + slope * (annual * 5.0);
      Left(slope, annual, current) == if left > 0.0 then left else 0.0
  {
    assert -slope * (annual * 5.0) == -(slope * (annual * 5.0));
  }

  /** A projection is never negative, and stays at or below the current state of health exactly
      when the capacity is not falling or the counter rose over the window. */
  lemma ProjectionBounds(s: Health)
    requires Calibrated(s)
    ensures s.current.Some? ==> SohPct(s).Some? && 0.0 < SohPct(s).value <= 100.5
    ensures Projection(s).Some? ==>
      && SohPct(s).Some? && Projection(s).value >= 0.0
      && (Projection(s).value <= SohPct(s).value <==> Slope(s).value >= 0.0 || CounterRose(s))
  {
    hide Percent, Left, Slope, AnnualThroughput;
    if s.current.Some? { SohBounds(s); }
    if Projection(s).Some? && Slope(s).value < 0.0 {
      var base, current, slope, annual := s.baseline.value, s.current.value, Slope(s).value, AnnualThroughput(s).value;
      AnnualSign(s);
      LeftBounds(slope, annual, current);
      PercentCompares(Left(slope, annual, current), current, base);
      PercentCompares(0.0, Left(slope, annual, current), base);
      PercentOf(base, 0.0);
    }
  }

  lemma SohBounds(s: Health)
    requires Calibrated(s) && s.current.Some?
    ensures SohPct(s).Some? && 0.0 < SohPct(s).value <= 100.5
  {
    hide Percent;
    var base, current := s.baseline.value, s.current.value;
    PercentCompares(current, base * RAISE_FACTOR, base);
    PercentCompares(current, 0.0, base);
    PercentOf(base, RAISE_FACTOR);
  }

  /** With a counter that never falls and a capacity that never rises: no rising slope, and the
      projection between zero and the current state of health. */
  lemma WornBatteryProjection(s: Health)
    requires Calibrated(s) && NonDecreasing(Kwhs(s.samples)) && NonIncreasing(Whs(s.samples))
    ensures Projection(s).Some? ==>
      Slope(s).value <= 0.0 && SohPct(s).Some? && 0.0 <= Projection(s).value <= SohPct(s).value <= 100.5
  {
    OpposedSlopes(Kwhs(s.samples), Whs(s.samples));
    ProjectionBounds(s);
    var n := |s.samples|;
    if Projection(s).Some? {
      assert Kwhs(s.samples)[0] <= Kwhs(s.samples)[n - 1];
    }
  }

  /** Where it fails: a poll without the discharge counter is sampled as zero throughput. If its
      capacity is above that of all samples before, the projection exceeds the present health. */
  lemma MissingCounterExceeds(s: Health, kwh: real, wh: real)
    requires Calibrated(s) && s.current.Some? && Reliable(s) && kwh > 0.0
    requires var m := |s.samples| - 1;
      && (forall i :: 0 <= i < m ==> s.samples[i].kwh == kwh && s.samples[i].wh == wh)
      && s.samples[m].kwh == 0.0 && s.samples[m].wh > wh
    ensures Projection(s).Some? && Projection(s).value > SohPct(s).value
  {
    var xs, ys, m := Kwhs(s.samples), Whs(s.samples), |s.samples| - 1;
    CrossIsPairs(xs, ys);
    PairsStep(xs, ys, m, xs[m], ys[m]);
    EqualPairs(xs[..m], ys[..m]);
    OppositeDistances(xs[..m], ys[..m], xs[m], ys[m]);
    DenominatorVanishes(xs);
    assert !AllEqual(xs) by { assert xs[0] != xs[m]; }
    hide Cross, Pairs, Distances, Percent, Left;
    NegativeQuotient(Cross(xs, ys), Cross(xs, xs));
    SohBounds(s);
    ProjectionBounds(s);
  }

  /** A poll a day and a bit, the capacity and the counter standing still. */
  function SteadyPolls(n: nat, kwh: real, wh: real): seq<Poll> {
    seq(n, i requires 0 <= i < n =>
      Poll(Some(wh), Some(1000.0 * kwh), 100000.0 * i as real, 100000.0 * (i + 1) as real))
  }

  /** A calculator that was never fed. */
  const UNFED := Health(None, None, [], 0.0)

  lemma {:induction false} SteadyRun(n: nat, kwh: real, wh: real)
    requires n < MAX_SAMPLES && 0.0 < wh <= MAX_CAPACITY
    ensures var s := After(UNFED, SteadyPolls(n, kwh, wh));
      && |s.samples| == n && (n > 0 ==> s.baseline == Some(wh) && s.current == Some(wh))
      && (forall i :: 0 <= i < n ==> s.samples[i] == Sample(kwh, wh, 100000.0 * i as real))
      && s.lastSample == 100000.0 * n as real
  {
    if n > 0 {
      var front := SteadyPolls(n - 1, kwh, wh);
      SteadyRun(n - 1, kwh, wh);
      assert SteadyPolls(n, kwh, wh)[..n - 1] == front;
      assert 1000.0 * kwh / 1000.0 == kwh;
    }
  }

  /** Such a state is reached: some thirty days of steady polls, then one without the counter
      that reads more capacity. */
  lemma MissingCounterIsReached(n: nat, kwh: real, wh: real, more: real)
    requires MIN_SAMPLES <= n < MAX_SAMPLES && kwh > 0.0 && 0.0 < wh < more <= MAX_CAPACITY
    ensures
      var last := Poll(Some(more), None, 100000.0 * n as real, 100000.0 * (n + 1) as real);
      var s := After(UNFED, SteadyPolls(n, kwh, wh) + [last]);
      Projection(s).Some? && Projection(s).value > SohPct(s).value
  {
    var last := Poll(Some(more), None, 100000.0 * n as real, 100000.0 * (n + 1) as real);
    var polls := SteadyPolls(n, kwh, wh) + [last];
    var s := After(UNFED, polls);
    assert polls[..n] == SteadyPolls(n, kwh, wh);
    SteadyRun(n, kwh, wh);
    RunsStayCalibrated(UNFED, polls);
    assert s.samples == After(UNFED, SteadyPolls(n, kwh, wh)).samples + [Sample(0.0, more, 100000.0 * n as real)];
    hide After, Projection, SohPct, Calibrated, SteadyPolls;
    assert Age(s.samples) == 100000.0 * n as real;
    MissingCounterExceeds(s, kwh, wh);
  }

  lemma NegativeQuotient(a: real, b: real)
    requires a < 0.0 && b > 0.0
    ensures a / b < 0.0
  {
    QuotientSign(-a, b);
    QuotientIs(-a, b, -(a / b));
  }

  /** Points of one x have no slope between them. */
  lemma {:induction false} EqualPairs(xs: seq<real>, ys: seq<real>)
    requires |xs| == |ys| && AllEqual(xs)
    ensures Pairs(xs, ys) == 0.0
  {
    if xs != [] {
      var n := |xs| - 1;
      EqualPairs(xs[..n], ys[..n]);
      EqualDistances(xs[..n], ys[..n], xs[n], ys[n]);
    }
  }

  lemma {:induction false} EqualDistances(xs: seq<real>, ys: seq<real>, u: real, v: real)
    requires |xs| == |ys| && forall i :: 0 <= i < |xs| ==> xs[i] == u
    ensures Distances(xs, ys, u, v) == 0.0
  {
    if xs != [] {
      var n := |xs| - 1;
      EqualDistances(xs[..n], ys[..n], u, v);
      assert (xs[n] - u) * (ys[n] - v) == 0.0 * (ys[n] - v);
    }
  }

  /** All points to the right of and below (u, v). */
  lemma {:induction false} OppositeDistances(xs: seq<real>, ys: seq<real>, u: real, v: real)
    requires |xs| == |ys| && xs != [] && forall i :: 0 <= i < |xs| ==> xs[i] > u && ys[i] < v
    ensures Distances(xs, ys, u, v) < 0.0
  {
    var n := |xs| - 1;
    DistancesStep(xs, ys, u, v, n, xs[n], ys[n]);
    Positive(xs[n] - u, v - ys[n], -((xs[n] - u) * (ys[n] - v)));
    if n > 0 { OppositeDistances(xs[..n], ys[..n], u, v); }
  }

  // ---------- The calculator ----------

  class BatterySohCalculator {
    var baselineCapacityWh: Option<real>
    var currentCapacityWh: Option<real>
    var samples: seq<Sample>
    var lastSampleMono: real
    var stopped: bool

    function Now(): Health
      reads this
    {
      Health(baselineCapacityWh, currentCapacityWh, samples, lastSampleMono)
    }

    constructor (baseline: Option<real>, saved: seq<Sample>)
      ensures Loaded(Now()) && !stopped && lastSampleMono == 0.0
      ensures baselineCapacityWh == baseline && samples == Keep(saved)
    {
      baselineCapacityWh, currentCapacityWh, samples := baseline, None, Keep(saved);
      lastSampleMono, stopped := 0.0, false;
    }

    /** One poll; once stopped, nothing changes any more. */
    method UpdateFromModbus(p: Poll) returns (changed: bool)
      modifies this
      ensures (Now(), changed) == if stopped then (old(Now()), false) else Updated(old(Now()), p)
      ensures stopped == old(stopped)
    {
      if stopped { return false; }
      if p.capacity.None? || p.capacity.value <= 0.0 || p.capacity.value > MAX_CAPACITY { return false; }
      var c := p.capacity.value;
      currentCapacityWh := Some(c);
      var kwh := (if p.discharge.Some? then p.discharge.value else 0.0) / 1000.0;
      changed := false;
      if baselineCapacityWh.None? {
        baselineCapacityWh := Some(c);
        changed := true;
      } else if c > baselineCapacityWh.value * RAISE_FACTOR {
        baselineCapacityWh := Some(c);
        changed := true;
      }
      if lastSampleMono == 0.0 || p.monotonic - lastSampleMono >= SAMPLE_INTERVAL {
        samples := Keep(samples + [Sample(kwh, c, p.unix)]);
        lastSampleMono := p.monotonic;
        changed := true;
      }
    }
  }
}
