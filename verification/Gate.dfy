/** The decision gate of the Rust client: debounces the policy's per-tick output. */
module Gate {
  import opened Bytes
  import opened Kem

  const REKEY_ACTION: nat := 3
  const ACTION_COUNT: nat := 4

  /** One tick of policy output: the mass of ML-KEM-512, -768, -1024 and rekey-now. */
  type Probs = p: seq<real> | |p| == ACTION_COUNT witness [0.0, 0.0, 0.0, 0.0]

  const REASON_AGREES := "policy agrees with in-force"
  const REASON_LOW_MARGIN := "challenger margin below the minimum"
  const REASON_ON_STREAK := "challenger on streak, not yet confirmed"
  const REASON_CONFIRMED := "challenger confirmed for the full streak"
  const REASON_REKEY := "rekey requested and cooldown clear"
  const REASON_REKEY_ESCALATED := "rekey requested; escalating to the policy's top-ranked KEM"
  const REASON_REKEY_SUPPRESSED := "rekey suppressed, cooldown still running"

  datatype Decision = Decision(inForce: Level, changeAlgorithm: bool, rekey: bool, reason: string)

  datatype Params = Params(confirmTicks: U32, minMargin: real, rekeyCooldownTicks: U32, rekeyEscalates: bool) {
    /** Consecutive wins that confirm a challenger; 0 acts as 1. */
    function Need(): nat {
      if confirmTicks == 0 then 1 else confirmTicks
    }
  }

  datatype State = State(inForce: Level, candidate: Option<nat>, streak: nat, rekeyBlockedFor: nat)

  function Fresh(inForce: Level): State {
    State(inForce, None, 0, 0)
  }

  /** `i` is the first index in `lo..hi` with the largest mass. */
  predicate IsFirstMax(p: Probs, lo: nat, hi: nat, i: nat)
    requires hi <= ACTION_COUNT
  {
    lo <= i < hi && forall j :: lo <= j < hi ==> p[j] <= p[i] && (j < i ==> p[j] < p[i])
  }

  function ArgMax(p: Probs, lo: nat, hi: nat): (best: nat)
    requires lo < hi <= ACTION_COUNT
    ensures IsFirstMax(p, lo, hi, best)
  {
    if hi == lo + 1 then lo
    else
      var best := ArgMax(p, lo, hi - 1);
      if p[hi - 1] > p[best] then hi - 1 else best
  }

  function Top(p: Probs): nat {
    ArgMax(p, 0, ACTION_COUNT)
  }

  function LevelAt(index: nat): Level
    requires index < REKEY_ACTION
  {
    FromWireCode(index).value
  }

  /** A genuine algorithm challenger that clears the margin. */
  predicate Extends(g: Params, inForce: Level, p: Probs) {
    Top(p) != REKEY_ACTION && Top(p) != inForce.WireCode()
    && p[Top(p)] - p[inForce.WireCode()] >= g.minMargin
  }

  function Step(g: Params, s: State, p: Probs): (State, Decision) {
    var blocked := if s.rekeyBlockedFor > 0 then s.rekeyBlockedFor - 1 else 0;
    var top := Top(p);
    var extends' := Extends(g, s.inForce, p);
    var candidate := if extends' then Some(top) else None;
    var streak := if !extends' then 0 else if s.candidate == Some(top) then s.streak + 1 else 1;
    if top == REKEY_ACTION then
      if blocked > 0 then
        (State(s.inForce, candidate, streak, blocked), Decision(s.inForce, false, false, REASON_REKEY_SUPPRESSED))
      else
        var best := LevelAt(ArgMax(p, 0, REKEY_ACTION));
        if g.rekeyEscalates && s.inForce.WeakerThan(best) then
          (State(best, candidate, streak, g.rekeyCooldownTicks), Decision(best, false, true, REASON_REKEY_ESCALATED))
        else
          (State(s.inForce, candidate, streak, g.rekeyCooldownTicks), Decision(s.inForce, false, true, REASON_REKEY))
    else if top == s.inForce.WireCode() then
      (State(s.inForce, candidate, streak, blocked), Decision(s.inForce, false, false, REASON_AGREES))
    else if !extends' then
      (State(s.inForce, candidate, streak, blocked), Decision(s.inForce, false, false, REASON_LOW_MARGIN))
    else if streak >= g.confirmTicks then
      (State(LevelAt(top), None, 0, blocked), Decision(LevelAt(top), true, false, REASON_CONFIRMED))
    else
      (State(s.inForce, candidate, streak, blocked), Decision(s.inForce, false, false, REASON_ON_STREAK))
  }

  method FindArgMax(p: Probs, lo: nat, hi: nat) returns (best: nat)
    requires lo < hi <= ACTION_COUNT
    ensures best == ArgMax(p, lo, hi)
    ensures IsFirstMax(p, lo, hi, best)
  {
    best := lo;
    var i := lo;
    while i < hi
      invariant lo <= i <= hi
      invariant i == lo ==> best == lo
      invariant i > lo ==> best == ArgMax(p, lo, i)
    {
      if p[i] > p[best] {
        best := i;
      }
      i := i + 1;
    }
  }

  class DecisionGate {
    const params: Params
    var inForce: Level
    var candidate: Option<nat>
    var streak: U32
    var rekeyBlockedFor: U32

    function View(): State
      reads this
    {
      State(inForce, candidate, streak, rekeyBlockedFor)
    }

    /** The counter stays below what confirms, so it never reaches the top of its type. */
    ghost predicate Valid()
      reads this
    {
      streak < params.Need()
    }

    constructor (params: Params, inForce: Level)
      ensures Valid() && this.params == params && View() == Fresh(inForce)
    {
      this.params := params;
      this.inForce := inForce;
      candidate, streak, rekeyBlockedFor := None, 0, 0;
    }

    method Update(probs: Probs) returns (d: Decision)
      requires Valid()
      modifies this
      ensures Valid()
      ensures (View(), d) == Step(params, old(View()), probs)
    {
      if rekeyBlockedFor > 0 {
        rekeyBlockedFor := rekeyBlockedFor - 1;
      }
      var top := FindArgMax(probs, 0, ACTION_COUNT);
      var inForceIdx: nat := inForce.WireCode();
      var extendsStreak := top != REKEY_ACTION && top != inForceIdx
        && probs[top] - probs[inForceIdx] >= params.minMargin;
      if !extendsStreak {
        candidate := None;
        streak := 0;
      } else if candidate == Some(top) {
        streak := streak + 1;
      } else {
        candidate := Some(top);
        streak := 1;
      }
      if top == REKEY_ACTION {
        if rekeyBlockedFor > 0 {
          return Decision(inForce, false, false, REASON_REKEY_SUPPRESSED);
        }
        rekeyBlockedFor := params.rekeyCooldownTicks;
        var reason := REASON_REKEY;
        if params.rekeyEscalates {
          var best := FindArgMax(probs, 0, REKEY_ACTION);
          var bestKem := LevelAt(best);
          if inForce.WeakerThan(bestKem) {
            inForce := bestKem;
            reason := REASON_REKEY_ESCALATED;
          }
        }
        return Decision(inForce, false, true, reason);
      }
      if top == inForceIdx {
        return Decision(inForce, false, false, REASON_AGREES);
      }
      if !extendsStreak {
        return Decision(inForce, false, false, REASON_LOW_MARGIN);
      }
      if streak >= params.confirmTicks {
        inForce := LevelAt(top);
        candidate := None;
        streak := 0;
        return Decision(inForce, true, false, REASON_CONFIRMED);
      }
      return Decision(inForce, false, false, REASON_ON_STREAK);
    }
  }
}
