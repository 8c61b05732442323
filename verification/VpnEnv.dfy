/** The simulator's transition: an episode never leaves the unit box. */
module VpnEnv {
  import opened Bytes
  import opened Oracle
  import opened Reals

  /** `action_space`: a discrete choice. */
  type Action = a: nat | a < N_ACTIONS

  /** What the generator contributes to one tick: the drift of each dimension and, on a spike, its size. */
  datatype Noise = Noise(drift: State, spike: Option<real>)

  function Drifted(s: State, drift: State): State {
    seq(STATE_DIM, i requires 0 <= i < STATE_DIM => Clip01(s[i] + drift[i]))
  }

  /** Mean reversion of the CPU load towards its level at reset. */
  function Reverted(cpu: real, cpuRelax: real, cpuBaseline: real): real {
    if cpuRelax > 0.0 then Clip01(cpu - cpuRelax * (cpu - cpuBaseline)) else cpu
  }

  /** The transition, dimension by dimension. */
  function Evolve(s: State, action: Action, noise: Noise, cpuRelax: real, cpuBaseline: real): State {
    var drifted := Drifted(s, noise.drift);
    var cpu := Clip01(drifted[CPU_LOAD] + 0.1 * (CPU_COST[action] / MAX_CPU_COST));
    var threat := if noise.spike.Some? then Clip01(drifted[THREAT] + noise.spike.value) else drifted[THREAT];
    drifted[CPU_LOAD := Reverted(cpu, cpuRelax, cpuBaseline)]
      [THREAT := if action == REKEY_ACTION_IDX then MaxReal(0.0, threat - 0.5) else threat]
      [TIME_SINCE_REKEY := if action == REKEY_ACTION_IDX then 0.0 else Clip01(drifted[TIME_SINCE_REKEY] + 0.02)]
  }

  class Env {
    const episodeLen: nat
    const cpuRelax: real
    var cpuBaseline: real
    var state: State
    var t: nat

    constructor (episodeLen: nat, cpuRelax: real, initial: State)
      ensures this.episodeLen == episodeLen && this.cpuRelax == cpuRelax
      ensures state == initial && t == 0 && cpuBaseline == initial[CPU_LOAD]
    {
      this.episodeLen, this.cpuRelax := episodeLen, cpuRelax;
      state, t, cpuBaseline := initial, 0, initial[CPU_LOAD];
    }

    /** `reset`, given the initial state it draws. */
    method Reset(initial: State)
      modifies this
      ensures state == initial && t == 0 && cpuBaseline == initial[CPU_LOAD]
    {
      state := initial;
      cpuBaseline := state[CPU_LOAD];
      t := 0;
    }

    /** `_evolve_state`: edits a drifted copy of the state in place. */
    method EvolveState(action: Action, noise: Noise) returns (next: State)
      ensures next == Evolve(state, action, noise, cpuRelax, cpuBaseline)
    {
      ghost var drifted := Drifted(state, noise.drift);
      var s := new real[STATE_DIM](i requires 0 <= i < STATE_DIM reads this => Clip01(state[i] + noise.drift[i]));
      assert s[..] == drifted;
      Spike(s, noise.spike);
      LoadCpu(s, action);
      if action == REKEY_ACTION_IDX {
        s[TIME_SINCE_REKEY] := 0.0;
        s[THREAT] := MaxReal(0.0, s[THREAT] - 0.5);
      } else {
        s[TIME_SINCE_REKEY] := Clip01(s[TIME_SINCE_REKEY] + 0.02);
      }
      next := s[..];
    }

    method Spike(s: array<real>, spike: Option<real>)
      requires s.Length == STATE_DIM
      modifies s
      ensures s[..] == old(s[..])[THREAT := if spike.Some? then Clip01(old(s[THREAT]) + spike.value) else old(s[THREAT])]
    {
      if spike.Some? {
        s[THREAT] := Clip01(s[THREAT] + spike.value);
      }
    }

    method LoadCpu(s: array<real>, action: Action)
      requires s.Length == STATE_DIM
      modifies s
      ensures var cpu := Clip01(old(s[CPU_LOAD]) + 0.1 * (CPU_COST[action] / MAX_CPU_COST));
        s[..] == old(s[..])[CPU_LOAD := Reverted(cpu, cpuRelax, cpuBaseline)]
    {
      var cpuCost := CPU_COST[action] / MAX_CPU_COST;
      s[CPU_LOAD] := Clip01(s[CPU_LOAD] + 0.1 * cpuCost);
      s[CPU_LOAD] := Reverted(s[CPU_LOAD], cpuRelax, cpuBaseline);
    }

    method TakeStep(action: Action, noise: Noise)
      returns (observation: State, reward: real, terminated: bool, truncated: bool, algo: string)
      modifies this`state, this`t
      ensures observation == state == Evolve(old(state), action, noise, cpuRelax, cpuBaseline)
      ensures reward == ActionReward(old(state), action)
      ensures t == old(t) + 1 && !terminated && (truncated <==> t >= episodeLen)
      ensures algo == ALGO_NAMES[action]
    {
      reward := ActionReward(state, action);
      state := EvolveState(action, noise);
      t := t + 1;
      return state, reward, false, t >= episodeLen, ALGO_NAMES[action];
    }
  }

  /** The state after a sequence of actions. */
  function Episode(s: State, actions: seq<Action>, noises: seq<Noise>, cpuRelax: real, cpuBaseline: real): State
    requires |actions| == |noises|
  {
    if actions == [] then s
    else
      var last := |actions| - 1;
      Evolve(Episode(s, actions[..last], noises[..last], cpuRelax, cpuBaseline), actions[last], noises[last], cpuRelax, cpuBaseline)
  }

  lemma EvolveStaysInBox(s: State, action: Action, noise: Noise, cpuRelax: real, cpuBaseline: real)
    ensures InBox(Evolve(s, action, noise, cpuRelax, cpuBaseline))
  {
    var next := Evolve(s, action, noise, cpuRelax, cpuBaseline);
    forall i | 0 <= i < STATE_DIM ensures 0.0 <= next[i] <= 1.0 {
    }
  }

  /** What one tick changes, dimension by dimension, from a state of the unit box: readings drift and stop at the walls;
      the timer adds 0.02, or is cleared by a rekey; a spike comes before the half unit a rekey takes off the threat; the
      CPU load gains the action's share of a tenth, and then closes the given part of its gap to the baseline. */
  lemma EvolveInCoordinates(s: State, action: Action, noise: Noise, cpuRelax: real, cpuBaseline: real)
    requires 0.0 <= cpuRelax <= 1.0 && 0.0 <= cpuBaseline <= 1.0
    ensures var next := Evolve(s, action, noise, cpuRelax, cpuBaseline);
      && (forall i :: 1 <= i <= 4 ==> next[i] == Clip01(s[i] + noise.drift[i]))
      && next[5] == (if action == 3 then 0.0 else Clip01(Clip01(s[5] + noise.drift[5]) + 0.02))
      && next[6] == (var drifted := Clip01(s[6] + noise.drift[6]);
                     var spiked := if noise.spike.Some? then Clip01(drifted + noise.spike.value) else drifted;
                     if action != 3 then spiked else if spiked >= 0.5 then spiked - 0.5 else 0.0)
      && var loaded := Clip01(Clip01(s[0] + noise.drift[0]) + [1.0 / 60.0, 1.0 / 30.0, 1.0 / 15.0, 1.0 / 10.0][action]);
         next[0] - cpuBaseline == (1.0 - cpuRelax) * (loaded - cpuBaseline)
  {
    var cpu := Clip01(Clip01(s[0] + noise.drift[0]) + 0.1 * (CPU_COST[action] / MAX_CPU_COST));
    assert 0.1 * (CPU_COST[action] / MAX_CPU_COST) == [1.0 / 60.0, 1.0 / 30.0, 1.0 / 15.0, 1.0 / 10.0][action];
    RevertsInBox(cpu, cpuRelax, cpuBaseline);
  }

  lemma FractionOf(r: real, x: real)
    requires 0.0 <= r <= 1.0 && x >= 0.0
    ensures 0.0 <= r * x <= x
  {
    NotNegative(r, x);
    NotNegative(1.0 - r, x);
    assert (1.0 - r) * x == x - r * x;
  }

  lemma NotNegative(a: real, b: real)
    requires a >= 0.0 && b >= 0.0
    ensures a * b >= 0.0
  {
  }

  lemma PartOfGap(r: real, gap: real, part: real)
    requires 0.0 <= r <= 1.0 && part == r * gap
    ensures (1.0 - r) * gap == gap - part
    ensures if gap >= 0.0 then 0.0 <= part <= gap else gap <= part <= 0.0
  {
    if gap >= 0.0 {
      FractionOf(r, gap);
    } else {
      FractionOf(r, -gap);
      assert r * -gap == -part;
    }
  }

  lemma RevertsInBox(cpu: real, r: real, b: real)
    requires 0.0 <= cpu <= 1.0 && 0.0 <= r <= 1.0 && 0.0 <= b <= 1.0
    ensures Reverted(cpu, r, b) - b == (1.0 - r) * (cpu - b)
  {
    PartOfGap(r, cpu - b, r * (cpu - b));
    if r == 0.0 {
      assert r * (cpu - b) == 0.0;
    }
  }

  /** Every observation of every episode is in the unit box, whatever the generator draws, provided the first one
      is, and the later ones even if it is not: so the oracle's closed form applies at every step. */
  lemma {:induction false} EpisodeStaysInBox(s: State, actions: seq<Action>, noises: seq<Noise>, cpuRelax: real, cpuBaseline: real)
    requires |actions| == |noises|
    requires actions != [] || InBox(s)
    ensures InBox(Episode(s, actions, noises, cpuRelax, cpuBaseline))
  {
    if actions != [] {
      var last := |actions| - 1;
      EvolveStaysInBox(Episode(s, actions[..last], noises[..last], cpuRelax, cpuBaseline),
        actions[last], noises[last], cpuRelax, cpuBaseline);
    }
  }

  /** A rekey resets the session timer and takes half a unit off the threat, up to what a spike adds. */
  lemma RekeyRelieves(s: State, noise: Noise, other: Action, cpuRelax: real, cpuBaseline: real)
    requires other != REKEY_ACTION_IDX
    ensures var rekeyed := Evolve(s, REKEY_ACTION_IDX, noise, cpuRelax, cpuBaseline);
      var kept := Evolve(s, other, noise, cpuRelax, cpuBaseline);
      && rekeyed[TIME_SINCE_REKEY] == 0.0
      && rekeyed[THREAT] <= kept[THREAT] && (kept[THREAT] >= 0.5 ==> rekeyed[THREAT] == kept[THREAT] - 0.5)
      && Need(rekeyed) <= Need(kept) && Urgency(rekeyed) <= Urgency(kept)
  {
    EvolveStaysInBox(s, other, noise, cpuRelax, cpuBaseline);
  }
}
