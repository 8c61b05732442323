/** The reward model of the simulator and its one-step oracle, over exact reals. */
module Oracle {
  import opened Reals

  const CPU_LOAD: nat := 0
  const RAM_AVAIL: nat := 1
  const CONN_TYPE: nat := 4
  const TIME_SINCE_REKEY: nat := 5
  const THREAT: nat := 6
  const STATE_DIM: nat := 7
  const REKEY_ACTION_IDX: nat := 3
  const N_ACTIONS: nat := 4

  /** Registry columns in action order: ML-KEM-512, -768, -1024, rekey-now. */
  const SECURITY: seq<real> := [0.70, 0.85, 1.00, 1.00]
  const CPU_COST: seq<real> := [0.5, 1.0, 2.0, 3.0]
  const ALGO_NAMES: seq<string> := ["ML-KEM-512", "ML-KEM-768", "ML-KEM-1024", "rekey-now"]
  const MAX_CPU_COST: real := 3.0

  type State = s: seq<real> | |s| == STATE_DIM witness [0.0, 0.0, 0.0, 0.0, 0.0, 0.0, 0.0]

  predicate InBox(s: seq<real>) {
    |s| == STATE_DIM && forall i :: 0 <= i < STATE_DIM ==> 0.0 <= s[i] <= 1.0
  }

  function Need(s: State): (n: real)
    ensures 0.0 <= n <= 1.0
    ensures InBox(s) ==> 10.0 * n == 4.0 * s[THREAT] + 3.0 * s[CONN_TYPE] + 3.0 * s[TIME_SINCE_REKEY]
  {
    Clip01(0.4 * s[THREAT] + 0.3 * s[CONN_TYPE] + 0.3 * s[TIME_SINCE_REKEY])
  }

  function Pressure(s: State): (p: real)
    ensures 0.0 <= p <= 1.0
    ensures InBox(s) ==> 2.0 * p == s[CPU_LOAD] + (1.0 - s[RAM_AVAIL])
  {
    Clip01(0.5 * s[CPU_LOAD] + 0.5 * (1.0 - s[RAM_AVAIL]))
  }

  function Urgency(s: State): real {
    0.5 * s[THREAT] + 0.5 * s[TIME_SINCE_REKEY]
  }

  function KemReward(need: real, pressure: real, action: nat): real
    requires action < REKEY_ACTION_IDX
  {
    1.0 - 3.0 * MaxReal(0.0, need - SECURITY[action]) - (CPU_COST[action] / MAX_CPU_COST) * pressure
  }

  function RekeyReward(urgency: real): real {
    urgency - 0.5 * (1.0 - urgency) - 0.3
  }

  function ActionReward(s: State, action: nat): real
    requires action < N_ACTIONS
  {
    if action == REKEY_ACTION_IDX then RekeyReward(Urgency(s)) else KemReward(Need(s), Pressure(s), action)
  }

  /** `a` is the first of the first `n` actions with the largest reward: numpy's argmax. */
  predicate IsFirstBest(s: State, n: nat, a: nat)
    requires n <= N_ACTIONS
  {
    a < n && forall b :: 0 <= b < n ==> ActionReward(s, b) <= ActionReward(s, a) && (b < a ==> ActionReward(s, b) < ActionReward(s, a))
  }

  method ActionRewards(s: State) returns (r: seq<real>)
    ensures |r| == N_ACTIONS && forall a :: 0 <= a < N_ACTIONS ==> r[a] == ActionReward(s, a)
  {
    r := [];
    var a := 0;
    while a < N_ACTIONS
      invariant 0 <= a <= N_ACTIONS && |r| == a
      invariant forall b :: 0 <= b < a ==> r[b] == ActionReward(s, b)
    {
      r := r + [ActionReward(s, a)];
      a := a + 1;
    }
  }

  method OptimalAction(s: State) returns (best: nat)
    ensures IsFirstBest(s, N_ACTIONS, best)
    ensures InBox(s) ==> best == JudgeState(s).choice
  {
    var r := ActionRewards(s);
    best := 0;
    var a := 1;
    while a < N_ACTIONS
      invariant 1 <= a <= N_ACTIONS && IsFirstBest(s, a, best)
    {
      if r[a] > r[best] {
        best := a;
      }
      a := a + 1;
    }
    if InBox(s) {
      OracleInCoordinates(s, best);
    }
  }

  /** The batched rewards: one column per action, then the columns stacked into one row per state. */
  method ActionRewardsBatch(states: seq<State>) returns (rows: seq<seq<real>>)
    ensures |rows| == |states|
    ensures forall i :: 0 <= i < |states| ==> |rows[i]| == N_ACTIONS
    ensures forall i, a :: 0 <= i < |states| && 0 <= a < N_ACTIONS ==> rows[i][a] == ActionReward(states[i], a)
  {
    var n := |states|;
    var need := seq(n, i requires 0 <= i < n => Need(states[i]));
    var pressure := seq(n, i requires 0 <= i < n => Pressure(states[i]));
    var columns: seq<seq<real>> := [];
    var a := 0;
    while a < N_ACTIONS
      invariant 0 <= a <= N_ACTIONS && |columns| == a
      invariant forall b :: 0 <= b < a ==> |columns[b]| == n
      invariant forall b, i :: 0 <= b < a && 0 <= i < n ==> columns[b][i] == ActionReward(states[i], b)
    {
      var column;
      if a == REKEY_ACTION_IDX {
        column := seq(n, i requires 0 <= i < n => RekeyReward(Urgency(states[i])));
      } else {
        column := seq(n, i requires 0 <= i < n => KemReward(need[i], pressure[i], a));
      }
      columns := columns + [column];
      a := a + 1;
    }
    rows := seq(n, i requires 0 <= i < n => [columns[0][i], columns[1][i], columns[2][i], columns[3][i]]);
  }

  // ---- closed form --------------------------------------------------------------------------

  /** Three bands of security need, whose edges move up with resource pressure. */
  function BestKem(need: real, pressure: real): nat {
    if need <= 0.70 + pressure / 18.0 then 0
    else if need <= 0.85 + pressure / 9.0 then 1
    else 2
  }

  function BestKemReward(need: real, pressure: real): real {
    KemReward(need, pressure, BestKem(need, pressure))
  }

  /** The band rule picks the KEM the argmax over the three KEMs picks, and no other. */
  lemma BandsAreArgmax(s: State, a: nat)
    requires a < REKEY_ACTION_IDX
    ensures IsFirstBest(s, REKEY_ACTION_IDX, a) <==> a == BestKem(Need(s), Pressure(s))
  {
    var n, p := Need(s), Pressure(s);
    BandRewards(n, p);
    assert ActionReward(s, 0) == KemReward(n, p, 0);
    assert ActionReward(s, 1) == KemReward(n, p, 1);
    assert ActionReward(s, 2) == KemReward(n, p, 2);
  }

  lemma BandRewards(need: real, pressure: real)
    requires 0.0 <= need <= 1.0 && 0.0 <= pressure <= 1.0
    ensures KemReward(need, pressure, 0) >= KemReward(need, pressure, 1) <==> need <= 0.70 + pressure / 18.0
    ensures KemReward(need, pressure, 1) >= KemReward(need, pressure, 2) <==> need <= 0.85 + pressure / 9.0
    ensures BestKem(need, pressure) == 0 ==> KemReward(need, pressure, 0) >= KemReward(need, pressure, 2)
    ensures BestKem(need, pressure) == 2 ==> KemReward(need, pressure, 2) > KemReward(need, pressure, 0)
  {
    assert KemReward(need, pressure, 0) == 1.0 - 3.0 * MaxReal(0.0, need - 0.70) - pressure / 6.0;
    assert KemReward(need, pressure, 1) == 1.0 - 3.0 * MaxReal(0.0, need - 0.85) - pressure / 3.0;
    assert KemReward(need, pressure, 2) == 1.0 - 3.0 * MaxReal(0.0, need - 1.0) - 2.0 * pressure / 3.0;
  }

  /** The oracle in closed form: rekey-now when its reward strictly beats the band rule's KEM, else that KEM. */
  lemma OracleClosedForm(s: State, a: nat)
    requires a < N_ACTIONS
    ensures IsFirstBest(s, N_ACTIONS, a)
      <==> a == if RekeyReward(Urgency(s)) > BestKemReward(Need(s), Pressure(s)) then REKEY_ACTION_IDX
                else BestKem(Need(s), Pressure(s))
  {
    var k := BestKem(Need(s), Pressure(s));
    BandsAreArgmax(s, k);
    if a < REKEY_ACTION_IDX {
      BandsAreArgmax(s, a);
    }
    assert ActionReward(s, REKEY_ACTION_IDX) == RekeyReward(Urgency(s));
    assert ActionReward(s, k) == BestKemReward(Need(s), Pressure(s));
  }

  /** More need never picks a weaker KEM; more pressure never picks a stronger one. */
  lemma BandsMonotone(need: real, pressure: real, need': real, pressure': real)
    requires need <= need' && pressure >= pressure'
    ensures BestKem(need, pressure) <= BestKem(need', pressure')
  {
  }

  /** The all-ones threat corner at a given pressure. */
  function Corner(pressure: real): State {
    [pressure, 1.0 - pressure, 0.0, 0.0, 1.0, 1.0, 1.0]
  }

  /** rekey-now is the oracle's choice in some state of the unit box at pressure `p` exactly when p > 0.45. */
  lemma RekeyNeedsPressure(p: real)
    requires 0.0 <= p <= 1.0
    ensures (exists s: State :: InBox(s) && Pressure(s) == p && IsFirstBest(s, N_ACTIONS, REKEY_ACTION_IDX)) <==> p > 0.45
  {
    if s: State :| InBox(s) && Pressure(s) == p && IsFirstBest(s, N_ACTIONS, REKEY_ACTION_IDX) {
      OracleClosedForm(s, REKEY_ACTION_IDX);
      RekeyBeatsNoKemBelow(s);
    }
    if p > 0.45 {
      var s: State := Corner(p);
      assert InBox(s) && Pressure(s) == p && Need(s) == 1.0 && Urgency(s) == 1.0;
      assert BestKemReward(1.0, p) < 0.7 by {
        BandRewards(1.0, p);
        CornerReward(p);
      }
      OracleClosedForm(s, REKEY_ACTION_IDX);
    }
  }

  lemma CornerReward(p: real)
    requires 0.45 < p <= 1.0
    ensures BestKemReward(1.0, p) < 0.7
  {
    assert 0.85 + p / 9.0 < 1.0;
    assert BestKem(1.0, p) == 2;
    assert KemReward(1.0, p, 2) == 1.0 - 2.0 * p / 3.0;
  }

  lemma RekeyBeatsNoKemBelow(s: State)
    requires InBox(s) && RekeyReward(Urgency(s)) > BestKemReward(Need(s), Pressure(s))
    ensures Pressure(s) > 0.45
  {
    var n, p := Need(s), Pressure(s);
    BandRewards(n, p);
    assert KemReward(n, p, 2) == 1.0 - 2.0 * p / 3.0;
    assert BestKemReward(n, p) >= KemReward(n, p, 2);
    assert Urgency(s) <= 1.0 && RekeyReward(Urgency(s)) <= 0.7;
  }

  // ---- the oracle in coordinates ----------------------------------------------------------------

  /** The KEM and its reward at threat `t`, connection type `c`, timer `k`, CPU load `cpu` and free memory `ram`, and
      the choice among all four actions: everything in the observed coordinates. */
  datatype Verdict = Verdict(kem: nat, reward: real, choice: nat)

  function Judge(t: real, c: real, k: real, cpu: real, ram: real): Verdict {
    var need := 0.4 * t + 0.3 * c + 0.3 * k;
    var load := cpu + 1.0 - ram;
    var kem := if need <= 0.70 + load / 36.0 then 0 else if need <= 0.85 + load / 18.0 then 1 else 2;
    var reward :=
      if kem == 0 then 1.0 - (if need > 0.70 then 3.0 * (need - 0.70) else 0.0) - load / 12.0
      else if kem == 1 then 1.0 - (if need > 0.85 then 3.0 * (need - 0.85) else 0.0) - load / 6.0
      else 1.0 - load / 3.0;
    Verdict(kem, reward, if 0.75 * (t + k) - 0.8 > reward then 3 else kem)
  }

  function JudgeState(s: State): Verdict {
    Judge(s[6], s[4], s[5], s[0], s[1])
  }

  /** The four rewards in coordinates, on the whole unit box. */
  lemma RewardsInCoordinates(s: State)
    requires InBox(s)
    ensures var need := 0.4 * s[6] + 0.3 * s[4] + 0.3 * s[5];
      var load := s[0] + 1.0 - s[1];
      && ActionReward(s, 0) == 1.0 - (if need > 0.70 then 3.0 * (need - 0.70) else 0.0) - load / 12.0
      && ActionReward(s, 1) == 1.0 - (if need > 0.85 then 3.0 * (need - 0.85) else 0.0) - load / 6.0
      && ActionReward(s, 2) == 1.0 - load / 3.0
      && ActionReward(s, 3) == 0.75 * (s[6] + s[5]) - 0.8
  {
    var need, load := 0.4 * s[6] + 0.3 * s[4] + 0.3 * s[5], s[0] + 1.0 - s[1];
    assert Need(s) == need && Pressure(s) == load / 2.0;
    assert KemReward(need, load / 2.0, 0) == 1.0 - 3.0 * MaxReal(0.0, need - 0.70) - load / 12.0;
    assert KemReward(need, load / 2.0, 1) == 1.0 - 3.0 * MaxReal(0.0, need - 0.85) - load / 6.0;
    assert KemReward(need, load / 2.0, 2) == 1.0 - 3.0 * MaxReal(0.0, need - 1.0) - load / 3.0;
  }

  /** On every state of the unit box the best KEM and the oracle's choice are the ones the coordinates give. */
  lemma OracleInCoordinates(s: State, a: nat)
    requires InBox(s)
    ensures a < 3 ==> (IsFirstBest(s, 3, a) <==> a == JudgeState(s).kem)
    ensures ActionReward(s, JudgeState(s).kem) == JudgeState(s).reward
    ensures a < 4 ==> (IsFirstBest(s, 4, a) <==> a == JudgeState(s).choice)
  {
    RewardsInCoordinates(s);
    if a < 3 {
      BestInCoordinates(s, a);
    }
    BestInCoordinates(s, JudgeState(s).kem);
  }

  lemma BestInCoordinates(s: State, a: nat)
    requires InBox(s) && a < 3
    ensures IsFirstBest(s, 3, a) <==> a == JudgeState(s).kem
  {
    RewardsInCoordinates(s);
  }
}
