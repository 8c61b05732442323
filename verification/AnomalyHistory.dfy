/** What the detectors and the combiner mean over whole runs. */
module AnomalyHistory {
  import opened Bytes
  import opened Anomaly
  import opened Reals

  // ---- gating is filtering ------------------------------------------------------------------

  /** The combiner after a run. */
  function After(deviation: seq<real> -> real, window: nat, samples: seq<Sample>): Layers {
    if samples == [] then START
    else CombinerStep(deviation, window, After(deviation, window, samples[..|samples| - 1]), samples[|samples| - 1]).0
  }

  /** The Layer 2 detectors, each run on its own, with no gate. */
  function Alone(samples: seq<Sample>): Layer2 {
    if samples == [] then LAYER2_START
    else Layer2Step(Alone(samples[..|samples| - 1]), samples[|samples| - 1]).0
  }

  function Layer1Alone(deviation: seq<real> -> real, window: nat, samples: seq<Sample>): Baseline {
    if samples == [] then Baseline([], [], [])
    else BaselineStep(deviation, window, Layer1Alone(deviation, window, samples[..|samples| - 1]), samples[|samples| - 1]).0
  }

  /** The ticks on which the gate let Layer 2 run. */
  function ActiveOnly(samples: seq<Sample>): seq<Sample> {
    if samples == [] then []
    else
      var last := samples[|samples| - 1];
      ActiveOnly(samples[..|samples| - 1]) + if last.cpuLoad < 0.70 then [last] else []
  }

  /** CPU gating is filtering: on every run each Layer 2 detector inside the combiner is in the state it would
      have reached alone on just the ticks below the gate, and Layer 1 never notices the gate. */
  lemma {:induction false} GatingIsFiltering(deviation: seq<real> -> real, window: nat, samples: seq<Sample>)
    ensures After(deviation, window, samples).layer2 == Alone(ActiveOnly(samples))
    ensures After(deviation, window, samples).layer1 == Layer1Alone(deviation, window, samples)
  {
    if samples != [] {
      var before, last := samples[..|samples| - 1], samples[|samples| - 1];
      GatingIsFiltering(deviation, window, before);
      if Active(last) {
        assert (ActiveOnly(before) + [last])[..|ActiveOnly(before)|] == ActiveOnly(before);
      } else {
        assert ActiveOnly(before) + [] == ActiveOnly(before);
      }
    }
  }

  // ---- streaks and windows ------------------------------------------------------------------

  /** Each of the last `k` of the ticks crossed the retransmission line. */
  predicate RetransCrossedLast(samples: seq<Sample>, k: nat) {
    k <= |samples| && forall n :: |samples| - k <= n < |samples| ==> samples[n].retransmitRate >= 0.10
  }

  /** At least 2 MB/s up, and at least three times what comes down, counted as at least one byte per second. */
  predicate Exfiltrates(s: Sample) {
    s.upload >= 2000000.0 && s.upload >= 3.0 * s.download && s.upload >= 3.0
  }

  lemma ExfiltratesIsCrossing(s: Sample)
    ensures ExfilCrossed(s) <==> Exfiltrates(s)
  {
    var d := if s.download > 1.0 then s.download else 1.0;
    assert UploadRatio(s) == s.upload / d;
    assert s.upload / d >= 3.0 <==> s.upload >= 3.0 * d;
  }

  predicate ExfilCrossedLast(samples: seq<Sample>, k: nat) {
    k <= |samples| && forall n :: |samples| - k <= n < |samples| ==> Exfiltrates(samples[n])
  }

  lemma {:induction false} RetransStreak(samples: seq<Sample>, k: nat)
    ensures Alone(samples).retrans >= k <==> RetransCrossedLast(samples, k)
    decreases |samples|
  {
    if samples != [] && k > 0 {
      var before := samples[..|samples| - 1];
      RetransStreak(before, k - 1);
      if RetransCrossedLast(before, k - 1) && RetransCrossed(samples[|samples| - 1]) {
        forall n | |samples| - k <= n < |samples| ensures samples[n].retransmitRate >= 0.10 {
          assert n < |samples| - 1 ==> before[n].retransmitRate >= 0.10;
        }
      }
    }
  }

  lemma {:induction false} ExfilStreak(samples: seq<Sample>, k: nat)
    ensures Alone(samples).exfil >= k <==> ExfilCrossedLast(samples, k)
    decreases |samples|
  {
    if samples != [] && k > 0 {
      var before := samples[..|samples| - 1];
      ExfilStreak(before, k - 1);
      ExfiltratesIsCrossing(samples[|samples| - 1]);
      if ExfilCrossedLast(before, k - 1) && Exfiltrates(samples[|samples| - 1]) {
        forall n | |samples| - k <= n < |samples| ensures Exfiltrates(samples[n]) {
          assert n < |samples| - 1 ==> Exfiltrates(before[n]);
        }
      }
    }
  }

  /** At tick `n` there were three latencies, and two of the last three were 80 ms apart. */
  predicate Jittery(samples: seq<Sample>, n: nat)
    requires n < |samples|
  {
    n >= 2 && exists i, j :: n - 2 <= i <= n && n - 2 <= j <= n && samples[i].latencyMs - samples[j].latencyMs >= 80.0
  }

  predicate JitteryLast(samples: seq<Sample>, k: nat) {
    k <= |samples| && forall n :: |samples| - k <= n < |samples| ==> Jittery(samples, n)
  }

  function Latencies(samples: seq<Sample>): (r: seq<real>)
    ensures |r| == |samples| && forall i :: 0 <= i < |r| ==> r[i] == samples[i].latencyMs
  {
    seq(|samples|, i requires 0 <= i < |samples| => samples[i].latencyMs)
  }

  /** The deque holds the latest latencies, at most a window of them. */
  lemma {:induction false} WindowIsSuffix(samples: seq<Sample>)
    ensures var n := |samples|;
      Alone(samples).mitm.history
      == Latencies(samples)[if n > MITM_WINDOW_TICKS then n - MITM_WINDOW_TICKS else 0..]
  {
    if samples != [] {
      WindowIsSuffix(samples[..|samples| - 1]);
      assert Latencies(samples) == Latencies(samples[..|samples| - 1]) + [samples[|samples| - 1].latencyMs];
    }
  }

  lemma {:induction false} MaxMinBound(h: seq<real>)
    requires h != []
    ensures forall i :: 0 <= i < |h| ==> MinOf(h) <= h[i] <= MaxOf(h)
    ensures MaxOf(h) in h && MinOf(h) in h
  {
    if |h| > 1 {
      var init := h[..|h| - 1];
      MaxMinBound(init);
      assert h == init + [h[|h| - 1]];
    }
  }

  lemma SpreadIsGap(h: seq<real>, gap: real)
    requires h != []
    ensures MaxOf(h) - MinOf(h) >= gap <==> exists i, j :: 0 <= i < |h| && 0 <= j < |h| && h[i] - h[j] >= gap
  {
    MaxMinBound(h);
    if MaxOf(h) - MinOf(h) >= gap {
      var i :| 0 <= i < |h| && h[i] == MaxOf(h);
      var j :| 0 <= j < |h| && h[j] == MinOf(h);
      assert h[i] - h[j] >= gap;
    }
  }

  lemma WindowGap(samples: seq<Sample>, from: nat, h: seq<real>)
    requires from <= |samples| && h == Latencies(samples)[from..]
    ensures (exists i, j :: 0 <= i < |h| && 0 <= j < |h| && h[i] - h[j] >= MITM_JITTER_MS_THRESHOLD)
      <==> exists i, j :: from <= i < |samples| && from <= j < |samples|
             && samples[i].latencyMs - samples[j].latencyMs >= MITM_JITTER_MS_THRESHOLD
  {
    if i, j :| 0 <= i < |h| && 0 <= j < |h| && h[i] - h[j] >= MITM_JITTER_MS_THRESHOLD {
      assert samples[from + i].latencyMs - samples[from + j].latencyMs >= MITM_JITTER_MS_THRESHOLD;
    }
    forall i, j | from <= i < |samples| && from <= j < |samples|
      ensures samples[i].latencyMs - samples[j].latencyMs == h[i - from] - h[j - from] {
    }
  }

  lemma FullWindowGap(samples: seq<Sample>, h: seq<real>)
    requires |samples| >= MITM_WINDOW_TICKS && h == Latencies(samples)[|samples| - MITM_WINDOW_TICKS..]
    ensures JitterCrossed(h) <==> Jittery(samples, |samples| - 1)
  {
    SpreadIsGap(h, MITM_JITTER_MS_THRESHOLD);
    WindowGap(samples, |samples| - MITM_WINDOW_TICKS, h);
  }

  lemma CrossedIsJittery(samples: seq<Sample>)
    requires samples != []
    ensures JitterCrossed(Alone(samples).mitm.history) <==> Jittery(samples, |samples| - 1)
  {
    WindowIsSuffix(samples);
    if |samples| >= MITM_WINDOW_TICKS {
      FullWindowGap(samples, Latencies(samples)[|samples| - MITM_WINDOW_TICKS..]);
    }
  }

  lemma JitteryPrefix(samples: seq<Sample>, n: nat)
    requires n + 1 < |samples|
    ensures Jittery(samples, n) <==> Jittery(samples[..|samples| - 1], n)
  {
    var before := samples[..|samples| - 1];
    if Jittery(samples, n) {
      var i, j :| n + 1 - MITM_WINDOW_TICKS <= i <= n && n + 1 - MITM_WINDOW_TICKS <= j <= n
        && samples[i].latencyMs - samples[j].latencyMs >= MITM_JITTER_MS_THRESHOLD;
      assert before[i].latencyMs - before[j].latencyMs >= MITM_JITTER_MS_THRESHOLD;
    }
    if Jittery(before, n) {
      var i, j :| n + 1 - MITM_WINDOW_TICKS <= i <= n && n + 1 - MITM_WINDOW_TICKS <= j <= n
        && before[i].latencyMs - before[j].latencyMs >= MITM_JITTER_MS_THRESHOLD;
      assert samples[i].latencyMs - samples[j].latencyMs >= MITM_JITTER_MS_THRESHOLD;
    }
  }

  lemma {:induction false} MitmStreak(samples: seq<Sample>, k: nat)
    ensures Alone(samples).mitm.streak >= k <==> JitteryLast(samples, k)
    decreases |samples|
  {
    if samples != [] && k > 0 {
      var before := samples[..|samples| - 1];
      MitmStreak(before, k - 1);
      CrossedIsJittery(samples);
      forall n | 0 <= n < |before| ensures Jittery(samples, n) <==> Jittery(before, n) {
        JitteryPrefix(samples, n);
      }
    }
  }

  /** Layer 1 is ready once it has seen a window of ticks, gated or not. */
  lemma {:induction false} Layer1Ready(deviation: seq<real> -> real, window: nat, samples: seq<Sample>, s: Sample)
    ensures |Layer1Alone(deviation, window, samples).latency| == if |samples| < window then |samples| else window
    ensures Combine(CombinerStep(deviation, window, After(deviation, window, samples), s).1).ready
      <==> |samples| + 1 >= window
  {
    if samples != [] {
      Layer1Ready(deviation, window, samples[..|samples| - 1], s);
    }
    GatingIsFiltering(deviation, window, samples);
  }

  lemma {:induction false} DnsIsLast(samples: seq<Sample>)
    ensures Alone(samples).dns == if samples == [] then None else Some(samples[|samples| - 1].dnsServer)
  {
  }

  lemma AloneSnoc(samples: seq<Sample>, s: Sample)
    ensures Alone(samples + [s]) == Layer2Step(Alone(samples), s).0
  {
    assert (samples + [s])[..|samples|] == samples;
  }

  /** The readings of an active tick, in terms of the detector states around it. */
  lemma ActiveTick(deviation: seq<real> -> real, window: nat, l: Layers, s: Sample)
    requires Active(s)
    ensures var after := Layer2Step(l.layer2, s).0;
      var readings := CombinerStep(deviation, window, l, s).1;
      && |readings| == 6
      && (readings[2].anomalous <==> after.retrans >= RETRANS_CONSECUTIVE_TICKS)
      && (readings[3].anomalous <==> after.mitm.streak >= MITM_CONSECUTIVE_TICKS)
      && (readings[4].anomalous <==> after.exfil >= EXFIL_CONSECUTIVE_TICKS)
      && (readings[5].anomalous <==> l.layer2.dns.Some? && l.layer2.dns.value != s.dnsServer)
  {
  }

  /** When each Layer 2 detector of the combiner fires, on an active tick that ends any run at all: each as a
      condition on the last active ticks only. */
  lemma FiresExactly(deviation: seq<real> -> real, window: nat, samples: seq<Sample>, s: Sample)
    requires s.cpuLoad < 0.70
    ensures var seen := ActiveOnly(samples) + [s];
      var readings := CombinerStep(deviation, window, After(deviation, window, samples), s).1;
      && |readings| == 6
      && (readings[2].anomalous <==> RetransCrossedLast(seen, 2))
      && (readings[3].anomalous <==> JitteryLast(seen, 2))
      && (readings[4].anomalous <==> ExfilCrossedLast(seen, 2))
      && (readings[5].anomalous <==> |seen| >= 2 && seen[|seen| - 2].dnsServer != s.dnsServer)
  {
    var seen := ActiveOnly(samples) + [s];
    ActiveTick(deviation, window, After(deviation, window, samples), s);
    GatingIsFiltering(deviation, window, samples);
    AloneSnoc(ActiveOnly(samples), s);
    RetransStreak(seen, RETRANS_CONSECUTIVE_TICKS);
    MitmStreak(seen, MITM_CONSECUTIVE_TICKS);
    ExfilStreak(seen, EXFIL_CONSECUTIVE_TICKS);
    DnsIsLast(ActiveOnly(samples));
  }

  // ---- Layer 1 ------------------------------------------------------------------------------

  /** What Layer 1 measures: latency, packet rate, packet size. */
  function Metric(s: Sample, m: nat): real
    requires m < 3
  {
    if m == 0 then s.latency else if m == 1 then s.packetRate else s.packetSize
  }

  function Measured(samples: seq<Sample>, m: nat): (r: seq<real>)
    requires m < 3
    ensures |r| == |samples| && forall i :: 0 <= i < |r| ==> r[i] == Metric(samples[i], m)
  {
    seq(|samples|, i requires 0 <= i < |samples| => Metric(samples[i], m))
  }

  /** The last `n` values, or all if there are fewer. */
  function LastOf(v: seq<real>, n: nat): seq<real> {
    if |v| > n then v[|v| - n..] else v
  }

  lemma PushLast(v: seq<real>, x: real, n: nat)
    ensures Push(LastOf(v, n), x, n) == LastOf(v + [x], n)
  {
  }

  /** On every run, gated or not, each Layer 1 deque holds the last `window` values of its metric. */
  lemma {:induction false} BaselineIsSuffix(deviation: seq<real> -> real, window: nat, samples: seq<Sample>)
    ensures Layer1Alone(deviation, window, samples) == Baseline(
      LastOf(Measured(samples, 0), window), LastOf(Measured(samples, 1), window), LastOf(Measured(samples, 2), window))
  {
    if samples != [] {
      var before, s := samples[..|samples| - 1], samples[|samples| - 1];
      BaselineIsSuffix(deviation, window, before);
      forall m: nat | m < 3 ensures Push(LastOf(Measured(before, m), window), Metric(s, m), window) == LastOf(Measured(samples, m), window) {
        PushLast(Measured(before, m), Metric(s, m), window);
        assert Measured(samples, m) == Measured(before, m) + [Metric(s, m)];
      }
    }
  }

  /** The sum the mean is taken of is the sum: additive, and each value counts once. */
  lemma {:induction false} SumAdds(a: seq<real>, b: seq<real>, x: real)
    ensures Sum([]) == 0.0 && Sum([x]) == x && Sum(a + b) == Sum(a) + Sum(b)
    decreases |b|
  {
    assert [x][..0] == [];
    if b == [] {
      assert a + b == a;
    } else {
      var init, last := b[..|b| - 1], b[|b| - 1];
      SumAdds(a, init, x);
      assert (a + b)[..|a + b| - 1] == a + init;
    }
  }

  lemma MeanTimesCount(h: seq<real>)
    requires h != []
    ensures Mean(h) * |h| as real == Sum(h)
  {
  }

  /** `x` lies `r` deviations from the mean of `h`, on either side. */
  predicate Deviates(deviation: seq<real> -> real, h: seq<real>, x: real, r: real) {
    |h| >= 2 && deviation(h) != 0.0 && (x - Mean(h) == r * deviation(h) || Mean(h) - x == r * deviation(h))
  }

  /** There is enough of a history with any spread, and `x` is more than three deviations from its mean. */
  predicate FarOff(deviation: seq<real> -> real, h: seq<real>, x: real) {
    |h| >= 2 && deviation(h) != 0.0 && (x - Mean(h) > 3.0 * deviation(h) || Mean(h) - x > 3.0 * deviation(h))
  }

  /** A deviation is not negative. */
  ghost predicate NotNegative(deviation: seq<real> -> real) {
    forall h: seq<real> :: deviation(h) >= 0.0
  }

  lemma ZScoreIsDistance(deviation: seq<real> -> real, h: seq<real>, x: real)
    requires deviation(h) >= 0.0
    ensures var z := ZScore(deviation, h, x);
      && (z > 3.0 <==> FarOff(deviation, h, x))
      && (if |h| >= 2 && deviation(h) != 0.0 then Deviates(deviation, h, x, z) else z == 0.0)
      && forall r: real :: r >= 0.0 && Deviates(deviation, h, x, r) ==> r == z
  {
    if |h| >= 2 && deviation(h) != 0.0 {
      var d, gap, z := deviation(h), x - Mean(h), ZScore(deviation, h, x);
      DistanceIs(gap, d, z);
      forall r: real | r >= 0.0 && Deviates(deviation, h, x, r) ensures r == z {
        DistanceUnique(gap, d, z, r);
      }
    }
  }

  lemma DistanceIs(gap: real, d: real, z: real)
    requires d > 0.0 && z == if gap / d < 0.0 then -(gap / d) else gap / d
    ensures z >= 0.0 && z * d == if gap >= 0.0 then gap else -gap
    ensures z > 3.0 <==> gap > 3.0 * d || -gap > 3.0 * d
  {
    QuotientIs(gap, d);
    var q := gap / d;
    if q < 0.0 {
      assert -q * d == -(q * d);
    }
    Scales(z, 3.0, d);
  }

  lemma DistanceUnique(gap: real, d: real, z: real, r: real)
    requires d > 0.0 && z >= 0.0 && z * d == if gap >= 0.0 then gap else -gap
    requires r >= 0.0 && (gap == r * d || -gap == r * d)
    ensures r == z
  {
    assert r * d >= 0.0;
    Scales(r, z, d);
    Scales(z, r, d);
  }

  lemma QuotientIs(a: real, d: real)
    requires d > 0.0
    ensures a / d * d == a && (a / d >= 0.0 <==> a >= 0.0)
  {
  }

  /** In squares: more than three deviations off is more than nine variances in the square, so no root is needed. */
  lemma FarOffInSquares(deviation: seq<real> -> real, h: seq<real>, x: real, variance: real)
    requires h != [] && deviation(h) >= 0.0 && deviation(h) * deviation(h) == variance
    ensures FarOff(deviation, h, x) <==> |h| >= 2 && variance != 0.0 && (x - Mean(h)) * (x - Mean(h)) > 9.0 * variance
  {
    BeyondInSquares(x, Mean(h), deviation(h), variance);
    SquareIsZero(deviation(h), variance);
  }

  lemma BeyondInSquares(x: real, m: real, d: real, v: real)
    requires d >= 0.0 && d * d == v
    ensures x - m > 3.0 * d || m - x > 3.0 * d <==> (x - m) * (x - m) > 9.0 * v
  {
    var gap := if x >= m then x - m else m - x;
    assert (m - x) * (m - x) == (x - m) * (x - m);
    SquaresOrder(gap, 3.0 * d);
    assert (3.0 * d) * (3.0 * d) == 9.0 * v;
  }

  lemma SquareIsZero(d: real, v: real)
    requires d >= 0.0 && d * d == v
    ensures d == 0.0 <==> v == 0.0
  {
    if d > 0.0 {
      LessSquare(0.0, d);
    } else {
      assert d * d == 0.0 * 0.0;
    }
  }

  lemma LessSquare(a: real, b: real)
    requires 0.0 <= a < b
    ensures a * a < b * b
  {
    assert b - a > 0.0 && b + a > 0.0;
    assert b * b - a * a == (b - a) * (b + a);
  }

  lemma SquaresOrder(a: real, b: real)
    requires a >= 0.0 && b >= 0.0
    ensures a > b <==> a * a > b * b
  {
    if a > b {
      LessSquare(b, a);
    } else if a < b {
      LessSquare(a, b);
    }
  }

  /** Layer 1 on the next tick of any run: it fires exactly when one of the three metrics is more than three deviations
      from the mean of its last `window` values; and its score is the largest of the three distances, in units of six
      deviations, capped at 1. */
  lemma Layer1FiresExactly(deviation: seq<real> -> real, window: nat, samples: seq<Sample>, s: Sample)
    requires NotNegative(deviation)
    ensures var reading := CombinerStep(deviation, window, After(deviation, window, samples), s).1[0];
      && (reading.anomalous <==> exists m: nat :: m < 3 && FarOff(deviation, LastOf(Measured(samples, m), window), Metric(s, m)))
      && 0.0 <= reading.threatScore <= 1.0
      && (forall m: nat, r: real :: m < 3 && r >= 0.0 && Deviates(deviation, LastOf(Measured(samples, m), window), Metric(s, m), r) ==>
            reading.threatScore == 1.0 || 6.0 * reading.threatScore >= r)
      && (reading.threatScore > 0.0 ==>
            exists m: nat, r: real :: m < 3 && Deviates(deviation, LastOf(Measured(samples, m), window), Metric(s, m), r)
              && r >= 6.0 * reading.threatScore)
  {
    GatingIsFiltering(deviation, window, samples);
    BaselineIsSuffix(deviation, window, samples);
    var b := Layer1Alone(deviation, window, samples);
    var h := [b.latency, b.packetRate, b.packetSize];
    assert h[0] == LastOf(Measured(samples, 0), window);
    assert h[1] == LastOf(Measured(samples, 1), window);
    assert h[2] == LastOf(Measured(samples, 2), window);
    LargestDistance(deviation, h, s, CombinerStep(deviation, window, After(deviation, window, samples), s).1[0]);
    forall m: nat | m < 3 ensures h[m] == LastOf(Measured(samples, m), window) {
    }
  }

  lemma LargestDistance(deviation: seq<real> -> real, h: seq<seq<real>>, s: Sample, reading: Reading)
    requires |h| == 3 && NotNegative(deviation)
    requires var z := MaxReal(MaxReal(ZScore(deviation, h[0], Metric(s, 0)), ZScore(deviation, h[1], Metric(s, 1))),
                              ZScore(deviation, h[2], Metric(s, 2)));
      reading.anomalous == (z > 3.0) && reading.threatScore == Clip01(z / 6.0)
    ensures reading.anomalous <==> exists m: nat :: m < 3 && FarOff(deviation, h[m], Metric(s, m))
    ensures forall m: nat, r: real :: m < 3 && r >= 0.0 && Deviates(deviation, h[m], Metric(s, m), r) ==>
      reading.threatScore == 1.0 || 6.0 * reading.threatScore >= r
    ensures reading.threatScore > 0.0 ==>
      exists m: nat, r: real :: m < 3 && Deviates(deviation, h[m], Metric(s, m), r) && r >= 6.0 * reading.threatScore
  {
    var z0, z1, z2 := ZScore(deviation, h[0], Metric(s, 0)), ZScore(deviation, h[1], Metric(s, 1)), ZScore(deviation, h[2], Metric(s, 2));
    forall m: nat | m < 3 ensures var z := ZScore(deviation, h[m], Metric(s, m));
      && (z > 3.0 <==> FarOff(deviation, h[m], Metric(s, m)))
      && (z > 0.0 ==> Deviates(deviation, h[m], Metric(s, m), z))
      && forall r: real :: r >= 0.0 && Deviates(deviation, h[m], Metric(s, m), r) ==> r == z
    {
      ZScoreIsDistance(deviation, h[m], Metric(s, m));
    }
    var z := MaxReal(MaxReal(z0, z1), z2);
    assert z > 3.0 <==> z0 > 3.0 || z1 > 3.0 || z2 > 3.0;
    assert FarOff(deviation, h[0], Metric(s, 0)) <==> z0 > 3.0;
    assert FarOff(deviation, h[1], Metric(s, 1)) <==> z1 > 3.0;
    assert FarOff(deviation, h[2], Metric(s, 2)) <==> z2 > 3.0;
    if reading.threatScore > 0.0 {
      if z == z0 {
        assert Deviates(deviation, h[0], Metric(s, 0), z);
      } else if z == z1 {
        assert Deviates(deviation, h[1], Metric(s, 1), z);
      } else {
        assert Deviates(deviation, h[2], Metric(s, 2), z);
      }
    }
  }

  // ---- the combined verdict -----------------------------------------------------------------

  /** A scan: at least 15 ports, and at least seven in ten of the attempts failed. */
  predicate Scans(s: Sample) {
    s.distinctPorts >= 15 && s.connectionAttempts != 0
    && s.failedAttempts as real / s.connectionAttempts as real >= 0.7
  }

  /** What the combiner's single verdict means over a run, in the measurements themselves: a tick is anomalous exactly
      when Layer 1 has seen a window of ticks and a metric is far off its recent mean; or when the CPU load is below 0.70
      and there is a scan, or a retransmission rate of 0.10 on this and the last such tick, or latencies 80 ms apart among
      three on both, or exfiltration on both, or another DNS server than on the last. Readiness adds nothing to these:
      whatever fires has seen enough. */
  lemma CombinedFiresExactly(deviation: seq<real> -> real, window: nat, samples: seq<Sample>, s: Sample)
    requires NotNegative(deviation)
    ensures var seen := ActiveOnly(samples) + [s];
      Combine(CombinerStep(deviation, window, After(deviation, window, samples), s).1).anomalous
      <==> (|samples| + 1 >= window
            && exists m: nat :: m < 3 && FarOff(deviation, LastOf(Measured(samples, m), window), Metric(s, m)))
           || (s.cpuLoad < 0.70 && (
                 Scans(s)
                 || RetransCrossedLast(seen, 2)
                 || JitteryLast(seen, 2)
                 || ExfilCrossedLast(seen, 2)
                 || (|seen| >= 2 && seen[|seen| - 2].dnsServer != s.dnsServer)))
  {
    var l := After(deviation, window, samples);
    var readings := CombinerStep(deviation, window, l, s).1;
    Layer1Ready(deviation, window, samples, s);
    Layer1FiresExactly(deviation, window, samples, s);
    assert readings[0].ready <==> |samples| + 1 >= window;
    if s.cpuLoad < 0.70 {
      FiresExactly(deviation, window, samples, s);
      FiringIsReady(deviation, window, l, s);
      assert PortScan(s).anomalous <==> Scans(s);
      AnyReady(readings);
    } else {
      assert |readings| == 1;
    }
  }

  /** The Layer 2 readings of an active tick: the scan first, and none fires before it is ready. */
  lemma FiringIsReady(deviation: seq<real> -> real, window: nat, l: Layers, s: Sample)
    requires Active(s)
    ensures var readings := CombinerStep(deviation, window, l, s).1;
      && |readings| == 6 && readings[1] == PortScan(s)
      && forall i :: 1 <= i < 6 && readings[i].anomalous ==> readings[i].ready
  {
    assert MitmStep(l.layer2.mitm, s).1.anomalous ==> MitmStep(l.layer2.mitm, s).1.ready;
  }

  lemma AnyReady(readings: seq<Reading>)
    requires |readings| == 6 && forall i :: 1 <= i < 6 && readings[i].anomalous ==> readings[i].ready
    ensures Combine(readings).anomalous
      <==> (readings[0].anomalous && readings[0].ready) || readings[1].anomalous || readings[2].anomalous
           || readings[3].anomalous || readings[4].anomalous || readings[5].anomalous
  {
  }

  // ---- the combined score -------------------------------------------------------------------

  /** A calibrated reading: a score in [0, 1], at least 1/2 when it flags an anomaly. */
  predicate Calibrated(r: Reading) {
    0.0 <= r.threatScore <= 1.0 && (r.anomalous ==> r.threatScore >= 0.5)
  }

  lemma LayersCalibrated(deviation: seq<real> -> real, window: nat, l: Layers, s: Sample)
    ensures forall i :: 0 <= i < |CombinerStep(deviation, window, l, s).1| ==>
      Calibrated(CombinerStep(deviation, window, l, s).1[i])
  {
    assert Calibrated(PortScan(s));
    assert Calibrated(RetransStep(l.layer2.retrans, s).1);
    assert Calibrated(MitmStep(l.layer2.mitm, s).1);
    assert Calibrated(ExfilStep(l.layer2.exfil, s).1);
    assert Calibrated(DnsStep(l.layer2.dns, s).1);
    assert Calibrated(BaselineStep(deviation, window, l.layer1, s).1);
  }

  lemma {:induction false} TopScoreBounds(layers: seq<Reading>)
    requires forall i :: 0 <= i < |layers| ==> Calibrated(layers[i])
    ensures 0.0 <= TopScore(layers) <= 1.0
    ensures forall i :: 0 <= i < |layers| && layers[i].ready ==> layers[i].threatScore <= TopScore(layers)
    ensures TopScore(layers) == 0.0 || exists i :: 0 <= i < |layers| && layers[i].ready && layers[i].threatScore == TopScore(layers)
  {
    if layers != [] {
      TopScoreBounds(layers[..|layers| - 1]);
    }
  }

  /** `gap` is the largest difference between two of the last three latencies, 0 if there are fewer than three. */
  predicate LargestGap(samples: seq<Sample>, gap: real) {
    var n := |samples|;
    if n < 3 then gap == 0.0
    else
      && (forall i, j :: n - 3 <= i < n && n - 3 <= j < n ==> samples[i].latencyMs - samples[j].latencyMs <= gap)
      && exists i, j :: n - 3 <= i < n && n - 3 <= j < n && samples[i].latencyMs - samples[j].latencyMs == gap
  }

  /** The Layer 2 scores of an active tick, in any state: each measure on the scale that reaches 1/2 at its line and 1
      at twice its line, the smaller of two where a rule has two. */
  lemma Layer2Scores(deviation: seq<real> -> real, window: nat, l: Layers, s: Sample)
    requires s.cpuLoad < 0.70
    ensures var readings := CombinerStep(deviation, window, l, s).1;
      && |readings| == 6
      && readings[1].threatScore == MinReal(RatioScore(s.distinctPorts as real, 15.0), RatioScore(FailureRatio(s), 0.7))
      && readings[2].threatScore == RatioScore(s.retransmitRate, 0.10)
      && readings[3].threatScore == RatioScore(Spread(Layer2Step(l.layer2, s).0.mitm.history), 80.0)
      && readings[4].threatScore == MinReal(RatioScore(s.upload, 2000000.0), RatioScore(UploadRatio(s), 3.0))
      && readings[5].threatScore == (if readings[5].anomalous then 1.0 else 0.0)
  {
  }

  lemma RatiosAreQuotients(s: Sample)
    ensures UploadRatio(s) * (if s.download >= 1.0 then s.download else 1.0) == s.upload
    ensures if s.connectionAttempts == 0 then FailureRatio(s) == 0.0
      else FailureRatio(s) * s.connectionAttempts as real == s.failedAttempts as real
  {
  }

  /** On every run, what the jitter rule scores is the largest gap among the last three active latencies. */
  lemma JitterScored(deviation: seq<real> -> real, window: nat, samples: seq<Sample>, s: Sample)
    ensures var seen := ActiveOnly(samples) + [s];
      var h := Alone(seen).mitm.history;
      h == Layer2Step(After(deviation, window, samples).layer2, s).0.mitm.history && LargestGap(seen, Spread(h))
  {
    var seen := ActiveOnly(samples) + [s];
    GatingIsFiltering(deviation, window, samples);
    AloneSnoc(ActiveOnly(samples), s);
    WindowIsSuffix(seen);
    SpreadIsLargestGap(seen, Alone(seen).mitm.history);
  }

  /** When each layer's score counts: Layer 1 after a window of ticks, jitter after three active ones, DNS after two,
      the rest at once. */
  lemma ReadyExactly(deviation: seq<real> -> real, window: nat, samples: seq<Sample>, s: Sample)
    requires s.cpuLoad < 0.70
    ensures var seen := ActiveOnly(samples) + [s];
      var readings := CombinerStep(deviation, window, After(deviation, window, samples), s).1;
      && |readings| == 6
      && (readings[0].ready <==> |samples| + 1 >= window)
      && readings[1].ready && readings[2].ready && readings[4].ready
      && (readings[3].ready <==> |seen| >= 3)
      && (readings[5].ready <==> |seen| >= 2)
  {
    Layer1Ready(deviation, window, samples, s);
    GatingIsFiltering(deviation, window, samples);
    WindowIsSuffix(ActiveOnly(samples));
    DnsIsLast(ActiveOnly(samples));
  }

  lemma SpreadIsLargestGap(samples: seq<Sample>, h: seq<real>)
    requires h == Latencies(samples)[if |samples| > 3 then |samples| - 3 else 0..]
    ensures LargestGap(samples, Spread(h))
  {
    var n := |samples|;
    if n >= 3 {
      assert |h| == 3 && forall i :: 0 <= i < 3 ==> h[i] == samples[n - 3 + i].latencyMs;
      MaxMinBound(h);
      forall i, j | n - 3 <= i < n && n - 3 <= j < n ensures samples[i].latencyMs - samples[j].latencyMs <= Spread(h) {
        assert h[i - (n - 3)] <= MaxOf(h) && MinOf(h) <= h[j - (n - 3)];
      }
      var i :| 0 <= i < 3 && h[i] == MaxOf(h);
      var j :| 0 <= j < 3 && h[j] == MinOf(h);
      assert samples[n - 3 + i].latencyMs - samples[n - 3 + j].latencyMs == Spread(h);
    }
  }

  /** On every tick of every run the combined threat score is in [0, 1], and an anomaly means at least 1/2. */
  lemma CombinedCalibrated(deviation: seq<real> -> real, window: nat, samples: seq<Sample>, s: Sample)
    ensures var readings := CombinerStep(deviation, window, After(deviation, window, samples), s).1;
      var score := Combine(readings).threatScore;
      && (forall i :: 0 <= i < |readings| && readings[i].ready ==> readings[i].threatScore <= score)
      && (score == 0.0 || exists i :: 0 <= i < |readings| && readings[i].ready && readings[i].threatScore == score)
    ensures Calibrated(Combine(CombinerStep(deviation, window, After(deviation, window, samples), s).1))
  {
    var layers := CombinerStep(deviation, window, After(deviation, window, samples), s).1;
    LayersCalibrated(deviation, window, After(deviation, window, samples), s);
    TopScoreBounds(layers);
  }
}
