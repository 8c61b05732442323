/** The anomaly detectors and the combiner that runs them under the CPU gate. Measurements are reals. */
module Anomaly {
  import opened Bytes
  import opened Reals

  const Z_SCORE_THRESHOLD: real := 3.0
  const PORT_SCAN_DISTINCT_PORTS: int := 15
  const PORT_SCAN_FAILURE_RATIO: real := 0.7
  const RETRANS_RATE_THRESHOLD: real := 0.10
  const RETRANS_CONSECUTIVE_TICKS: nat := 2
  const MITM_JITTER_MS_THRESHOLD: real := 80.0
  const MITM_WINDOW_TICKS: nat := 3
  const MITM_CONSECUTIVE_TICKS: nat := 2
  const EXFIL_UPLOAD_BPS_THRESHOLD: real := 2000000.0
  const EXFIL_UPLOAD_DOWNLOAD_RATIO: real := 3.0
  const EXFIL_CONSECUTIVE_TICKS: nat := 2
  const LAYER2_CPU_GATE: real := 0.70

  /** One tick of measurements. */
  datatype Sample = Sample(
    cpuLoad: real, latency: real, packetRate: real, packetSize: real,
    distinctPorts: int, connectionAttempts: int, failedAttempts: int,
    retransmitRate: real, latencyMs: real, upload: real, download: real, dnsServer: string)

  datatype Reading = Reading(anomalous: bool, threatScore: real, ready: bool)

  function RatioScore(value: real, threshold: real): (r: real)
    ensures 0.0 <= r <= 1.0
    ensures threshold > 0.0 ==> (value >= threshold <==> r >= 0.5)
    ensures threshold > 0.0 && 0.0 <= value <= 2.0 * threshold ==> r * (2.0 * threshold) == value
    ensures threshold > 0.0 && value < 0.0 ==> r == 0.0
    ensures threshold > 0.0 && value > 2.0 * threshold ==> r == 1.0
  {
    if threshold <= 0.0 then 0.0
    else
      Quotient(value, threshold * 2.0, 0.0);
      Quotient(value, threshold * 2.0, 0.5);
      Quotient(value, threshold * 2.0, 1.0);
      Clip01(value / (threshold * 2.0))
  }

  /** A deque with a maximum length. */
  function Push(history: seq<real>, x: real, maxLen: nat): seq<real> {
    var h := history + [x];
    if |h| > maxLen then h[|h| - maxLen..] else h
  }

  // ---- Layer 1 ------------------------------------------------------------------------------

  datatype Baseline = Baseline(latency: seq<real>, packetRate: seq<real>, packetSize: seq<real>)

  function Sum(h: seq<real>): real {
    if h == [] then 0.0 else Sum(h[..|h| - 1]) + h[|h| - 1]
  }

  function Mean(h: seq<real>): real
    requires h != []
  {
    Sum(h) / |h| as real
  }

  /** `deviation` is the standard deviation of a history, a square root this model does not compute. */
  function ZScore(deviation: seq<real> -> real, history: seq<real>, value: real): (z: real)
    ensures z >= 0.0
  {
    if |history| < 2 || deviation(history) == 0.0 then 0.0
    else
      var z := (value - Mean(history)) / deviation(history);
      if z < 0.0 then -z else z
  }

  function BaselineStep(deviation: seq<real> -> real, window: nat, b: Baseline, s: Sample): (Baseline, Reading) {
    var maxZ := MaxReal(MaxReal(ZScore(deviation, b.latency, s.latency), ZScore(deviation, b.packetRate, s.packetRate)),
                        ZScore(deviation, b.packetSize, s.packetSize));
    var b' := Baseline(Push(b.latency, s.latency, window), Push(b.packetRate, s.packetRate, window),
                       Push(b.packetSize, s.packetSize, window));
    (b', Reading(maxZ > Z_SCORE_THRESHOLD, Clip01(maxZ / (Z_SCORE_THRESHOLD * 2.0)), |b'.latency| >= window))
  }

  class ZScoreBaseline {
    const window: nat
    const deviation: seq<real> -> real
    var history: Baseline

    constructor (window: nat, deviation: seq<real> -> real)
      ensures this.window == window && this.deviation == deviation && history == Baseline([], [], [])
    {
      this.window, this.deviation := window, deviation;
      history := Baseline([], [], []);
    }

    method Update(s: Sample) returns (r: Reading)
      modifies this
      ensures (history, r) == BaselineStep(deviation, window, old(history), s)
    {
      var z1 := ZScore(deviation, history.latency, s.latency);
      var z2 := ZScore(deviation, history.packetRate, s.packetRate);
      var z3 := ZScore(deviation, history.packetSize, s.packetSize);
      history := history.(latency := Push(history.latency, s.latency, window));
      history := history.(packetRate := Push(history.packetRate, s.packetRate, window));
      history := history.(packetSize := Push(history.packetSize, s.packetSize, window));
      var maxZ := MaxReal(MaxReal(z1, z2), z3);
      return Reading(maxZ > Z_SCORE_THRESHOLD, Clip01(maxZ / (Z_SCORE_THRESHOLD * 2.0)), |history.latency| >= window);
    }
  }

  // ---- Layer 2 ------------------------------------------------------------------------------

  function FailureRatio(s: Sample): real {
    if s.connectionAttempts == 0 then 0.0 else s.failedAttempts as real / s.connectionAttempts as real
  }

  function PortScan(s: Sample): Reading {
    Reading(
      s.distinctPorts >= PORT_SCAN_DISTINCT_PORTS && FailureRatio(s) >= PORT_SCAN_FAILURE_RATIO,
      MinReal(RatioScore(s.distinctPorts as real, PORT_SCAN_DISTINCT_PORTS as real),
              RatioScore(FailureRatio(s), PORT_SCAN_FAILURE_RATIO)),
      true)
  }

  predicate RetransCrossed(s: Sample) {
    s.retransmitRate >= RETRANS_RATE_THRESHOLD
  }

  function RetransStep(streak: nat, s: Sample): (nat, Reading) {
    var streak' := if RetransCrossed(s) then streak + 1 else 0;
    (streak', Reading(streak' >= RETRANS_CONSECUTIVE_TICKS, RatioScore(s.retransmitRate, RETRANS_RATE_THRESHOLD), true))
  }

  class RetransmissionSpikeSignature {
    var streak: nat

    constructor ()
      ensures streak == 0
    {
      streak := 0;
    }

    method Update(s: Sample) returns (r: Reading)
      modifies this
      ensures (streak, r) == RetransStep(old(streak), s)
    {
      if s.retransmitRate >= RETRANS_RATE_THRESHOLD {
        streak := streak + 1;
      } else {
        streak := 0;
      }
      return Reading(streak >= RETRANS_CONSECUTIVE_TICKS, RatioScore(s.retransmitRate, RETRANS_RATE_THRESHOLD), true);
    }
  }

  datatype Jitter = Jitter(history: seq<real>, streak: nat)

  function MaxOf(h: seq<real>): real
    requires h != []
  {
    if |h| == 1 then h[0] else MaxReal(MaxOf(h[..|h| - 1]), h[|h| - 1])
  }

  function MinOf(h: seq<real>): real
    requires h != []
  {
    if |h| == 1 then h[0] else MinReal(MinOf(h[..|h| - 1]), h[|h| - 1])
  }

  /** Spread of a full window of latencies; 0 until the window is full. */
  function Spread(history: seq<real>): real {
    if |history| >= MITM_WINDOW_TICKS then MaxOf(history) - MinOf(history) else 0.0
  }

  predicate JitterCrossed(history: seq<real>) {
    |history| >= MITM_WINDOW_TICKS && Spread(history) >= MITM_JITTER_MS_THRESHOLD
  }

  function MitmStep(j: Jitter, s: Sample): (Jitter, Reading) {
    var history := Push(j.history, s.latencyMs, MITM_WINDOW_TICKS);
    var streak := if JitterCrossed(history) then j.streak + 1 else 0;
    (Jitter(history, streak),
     Reading(streak >= MITM_CONSECUTIVE_TICKS, RatioScore(Spread(history), MITM_JITTER_MS_THRESHOLD),
             |history| >= MITM_WINDOW_TICKS))
  }

  class MitMLatencySignature {
    var state: Jitter

    constructor ()
      ensures state == Jitter([], 0)
    {
      state := Jitter([], 0);
    }

    method Update(s: Sample) returns (r: Reading)
      modifies this
      ensures (state, r) == MitmStep(old(state), s)
    {
      state := state.(history := Push(state.history, s.latencyMs, MITM_WINDOW_TICKS));
      var ready := |state.history| >= MITM_WINDOW_TICKS;
      var jitter := if ready then MaxOf(state.history) - MinOf(state.history) else 0.0;
      if ready && jitter >= MITM_JITTER_MS_THRESHOLD {
        state := state.(streak := state.streak + 1);
      } else {
        state := state.(streak := 0);
      }
      return Reading(state.streak >= MITM_CONSECUTIVE_TICKS, RatioScore(jitter, MITM_JITTER_MS_THRESHOLD), ready);
    }
  }

  function UploadRatio(s: Sample): real {
    s.upload / MaxReal(s.download, 1.0)
  }

  predicate ExfilCrossed(s: Sample) {
    s.upload >= EXFIL_UPLOAD_BPS_THRESHOLD && UploadRatio(s) >= EXFIL_UPLOAD_DOWNLOAD_RATIO
  }

  function ExfilStep(streak: nat, s: Sample): (nat, Reading) {
    var streak' := if ExfilCrossed(s) then streak + 1 else 0;
    (streak',
     Reading(streak' >= EXFIL_CONSECUTIVE_TICKS,
       MinReal(RatioScore(s.upload, EXFIL_UPLOAD_BPS_THRESHOLD), RatioScore(UploadRatio(s), EXFIL_UPLOAD_DOWNLOAD_RATIO)),
       true))
  }

  class BandwidthExfiltrationSignature {
    var streak: nat

    constructor ()
      ensures streak == 0
    {
      streak := 0;
    }

    method Update(s: Sample) returns (r: Reading)
      modifies this
      ensures (streak, r) == ExfilStep(old(streak), s)
    {
      var ratio := s.upload / MaxReal(s.download, 1.0);
      var clearsLine := s.upload >= EXFIL_UPLOAD_BPS_THRESHOLD && ratio >= EXFIL_UPLOAD_DOWNLOAD_RATIO;
      streak := if clearsLine then streak + 1 else 0;
      return Reading(streak >= EXFIL_CONSECUTIVE_TICKS,
        MinReal(RatioScore(s.upload, EXFIL_UPLOAD_BPS_THRESHOLD), RatioScore(ratio, EXFIL_UPLOAD_DOWNLOAD_RATIO)), true);
    }
  }

  function DnsStep(last: Option<string>, s: Sample): (Option<string>, Reading) {
    var anomalous := last.Some? && last.value != s.dnsServer;
    (Some(s.dnsServer), Reading(anomalous, if anomalous then 1.0 else 0.0, last.Some?))
  }

  class DnsServerChangeSignature {
    var last: Option<string>

    constructor (expected: Option<string>)
      ensures last == expected
    {
      last := expected;
    }

    method Update(s: Sample) returns (r: Reading)
      modifies this
      ensures (last, r) == DnsStep(old(last), s)
    {
      var ready := last.Some?;
      var anomalous := ready && s.dnsServer != last.value;
      last := Some(s.dnsServer);
      return Reading(anomalous, if anomalous then 1.0 else 0.0, ready);
    }
  }

  // ---- combiner -----------------------------------------------------------------------------

  datatype Layer2 = Layer2(retrans: nat, mitm: Jitter, exfil: nat, dns: Option<string>)

  const LAYER2_START := Layer2(0, Jitter([], 0), 0, None)

  datatype Layers = Layers(layer1: Baseline, layer2: Layer2)

  const START := Layers(Baseline([], [], []), LAYER2_START)

  function Layer2Step(l: Layer2, s: Sample): (Layer2, seq<Reading>) {
    var (retrans, r1) := RetransStep(l.retrans, s);
    var (mitm, r2) := MitmStep(l.mitm, s);
    var (exfil, r3) := ExfilStep(l.exfil, s);
    var (dns, r4) := DnsStep(l.dns, s);
    (Layer2(retrans, mitm, exfil, dns), [PortScan(s), r1, r2, r3, r4])
  }

  predicate Active(s: Sample) {
    s.cpuLoad < LAYER2_CPU_GATE
  }

  /** The largest score among the ready layers, 0 if there is none. */
  function TopScore(layers: seq<Reading>): real {
    if layers == [] then 0.0
    else
      var last := layers[|layers| - 1];
      var rest := TopScore(layers[..|layers| - 1]);
      if last.ready then MaxReal(rest, last.threatScore) else rest
  }

  function Combine(layers: seq<Reading>): Reading
    requires layers != []
  {
    Reading(exists i :: 0 <= i < |layers| && layers[i].ready && layers[i].anomalous, TopScore(layers), layers[0].ready)
  }

  /** One tick: the new detector states, and the readings of the layers that ran, Layer 1 first. */
  function CombinerStep(deviation: seq<real> -> real, window: nat, l: Layers, s: Sample): (Layers, seq<Reading>) {
    var (layer1, r) := BaselineStep(deviation, window, l.layer1, s);
    if Active(s) then
      var (layer2, rs) := Layer2Step(l.layer2, s);
      (Layers(layer1, layer2), [r] + rs)
    else (Layers(layer1, l.layer2), [r])
  }

  class AnomalyCombiner {
    const layer1: ZScoreBaseline
    const retransmission: RetransmissionSpikeSignature
    const mitmLatency: MitMLatencySignature
    const exfiltration: BandwidthExfiltrationSignature
    const dnsChange: DnsServerChangeSignature

    function View(): Layers
      reads layer1, retransmission, mitmLatency, exfiltration, dnsChange
    {
      Layers(layer1.history, Layer2(retransmission.streak, mitmLatency.state, exfiltration.streak, dnsChange.last))
    }

    constructor (window: nat, deviation: seq<real> -> real)
      ensures View() == START && layer1.window == window && layer1.deviation == deviation
      ensures fresh(layer1) && fresh(retransmission) && fresh(mitmLatency) && fresh(exfiltration) && fresh(dnsChange)
    {
      layer1 := new ZScoreBaseline(window, deviation);
      retransmission := new RetransmissionSpikeSignature();
      mitmLatency := new MitMLatencySignature();
      exfiltration := new BandwidthExfiltrationSignature();
      dnsChange := new DnsServerChangeSignature(None);
    }

    method Update(s: Sample) returns (r: Reading, layers: seq<Reading>)
      modifies layer1, retransmission, mitmLatency, exfiltration, dnsChange
      ensures (View(), layers) == CombinerStep(layer1.deviation, layer1.window, old(View()), s)
      ensures layers != [] && r == Combine(layers)
    {
      var r0 := layer1.Update(s);
      layers := [r0];
      if s.cpuLoad < LAYER2_CPU_GATE {
        var r1 := retransmission.Update(s);
        var r2 := mitmLatency.Update(s);
        var r3 := exfiltration.Update(s);
        var r4 := dnsChange.Update(s);
        layers := [r0] + [PortScan(s), r1, r2, r3, r4];
      }
      r := Combine(layers);
    }
  }
}
