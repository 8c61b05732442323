/** The Python decision gate, the stated source of truth for the Rust one. Actions and algorithms are plain
    indices here, and -1 stands for no candidate. */
module PyGate {
  import Gate

  type Probs = Gate.Probs

  const REKEY_ACTION_IDX: int := 3
  const ACTION_SECURITY: seq<real> := [0.70, 0.85, 1.00, 1.00]
  const KEM_ACTIONS: seq<int> := [0, 1, 2]

  const REASON_AGREES := "policy agrees with in-force"
  const REASON_LOW_MARGIN := "challenger margin below the minimum"
  const REASON_ON_STREAK := "challenger on streak, not yet confirmed"
  const REASON_CONFIRMED := "challenger confirmed for the full streak"
  const REASON_REKEY := "rekey requested and cooldown clear"
  const REASON_REKEY_ESCALATED := "rekey requested; escalating to the policy's top-ranked KEM"
  const REASON_REKEY_SUPPRESSED := "rekey suppressed, cooldown still running"

  datatype PyDecision = PyDecision(inForce: int, changeAlgorithm: bool, rekey: bool, reason: string)

  datatype PyParams = PyParams(confirmTicks: int, minMargin: real, rekeyCooldownTicks: int, rekeyEscalates: bool)

  datatype PyState = PyState(inForce: int, candidate: int, streak: int, rekeyBlockedFor: int)

  /** An action index of a KEM, the only thing `in_force` ever holds. */
  predicate IsKem(i: int) {
    i in KEM_ACTIONS
  }

  /** `best` stands at `i`, and is the first of the indices with the largest value. */
  predicate IsFirstLargest(p: Probs, indices: seq<int>, i: int, best: int)
    requires forall j :: 0 <= j < |indices| ==> 0 <= indices[j] < 4
    requires 0 <= i < |indices|
  {
    indices[i] == best && forall j :: 0 <= j < |indices| ==> p[indices[j]] <= p[best] && (j < i ==> p[indices[j]] < p[best])
  }

  /** `max(indices, key=probs)`: the first index with the largest value. */
  function MaxKey(p: Probs, indices: seq<int>): (best: int)
    requires indices != [] && forall j :: 0 <= j < |indices| ==> 0 <= indices[j] < 4
    ensures exists i :: 0 <= i < |indices| && IsFirstLargest(p, indices, i, best)
  {
    if |indices| == 1 then
      assert IsFirstLargest(p, indices, 0, indices[0]);
      indices[0]
    else
      var last := |indices| - 1;
      var init := indices[..last];
      var best := MaxKey(p, init);
      var i := indices[last];
      if p[i] > p[best] then
        assert IsFirstLargest(p, indices, last, i);
        i
      else
        assert forall k :: 0 <= k < last && IsFirstLargest(p, init, k, best) ==> IsFirstLargest(p, indices, k, best);
        best
  }

  function PyTop(p: Probs): int {
    MaxKey(p, [0, 1, 2, 3])
  }

  function PyStep(g: PyParams, s: PyState, p: Probs): (PyState, PyDecision)
    requires IsKem(s.inForce)
  {
    var blocked := if s.rekeyBlockedFor > 0 then s.rekeyBlockedFor - 1 else s.rekeyBlockedFor;
    var top := PyTop(p);
    var extends' := top != REKEY_ACTION_IDX && top != s.inForce && p[top] - p[s.inForce] >= g.minMargin;
    var candidate := if extends' then top else -1;
    var streak := if !extends' then 0 else if top == s.candidate then s.streak + 1 else 1;
    if top == REKEY_ACTION_IDX then
      if blocked == 0 then
        var best := MaxKey(p, KEM_ACTIONS);
        if g.rekeyEscalates && ACTION_SECURITY[best] > ACTION_SECURITY[s.inForce] then
          (PyState(best, candidate, streak, g.rekeyCooldownTicks), PyDecision(best, false, true, REASON_REKEY_ESCALATED))
        else
          (PyState(s.inForce, candidate, streak, g.rekeyCooldownTicks), PyDecision(s.inForce, false, true, REASON_REKEY))
      else
        (PyState(s.inForce, candidate, streak, blocked), PyDecision(s.inForce, false, false, REASON_REKEY_SUPPRESSED))
    else if top == s.inForce then
      (PyState(s.inForce, candidate, streak, blocked), PyDecision(s.inForce, false, false, REASON_AGREES))
    else if !extends' then
      (PyState(s.inForce, candidate, streak, blocked), PyDecision(s.inForce, false, false, REASON_LOW_MARGIN))
    else if streak >= g.confirmTicks then
      (PyState(top, -1, 0, blocked), PyDecision(top, true, false, REASON_CONFIRMED))
    else
      (PyState(s.inForce, candidate, streak, blocked), PyDecision(s.inForce, false, false, REASON_ON_STREAK))
  }

  class PyDecisionGate {
    const params: PyParams
    var inForce: int
    var candidate: int
    var streak: int
    var rekeyBlockedFor: int

    function View(): PyState
      reads this
    {
      PyState(inForce, candidate, streak, rekeyBlockedFor)
    }

    constructor (params: PyParams, inForce: int)
      ensures this.params == params && View() == PyState(inForce, -1, 0, 0)
    {
      this.params := params;
      this.inForce := inForce;
      candidate, streak, rekeyBlockedFor := -1, 0, 0;
    }

    method Update(probs: Probs) returns (d: PyDecision)
      requires IsKem(inForce)
      modifies this
      ensures IsKem(inForce)
      ensures (View(), d) == PyStep(params, old(View()), probs)
    {
      if rekeyBlockedFor > 0 {
        rekeyBlockedFor := rekeyBlockedFor - 1;
      }
      var top := PyTop(probs);
      var extendsStreak := top != REKEY_ACTION_IDX && top != inForce && probs[top] - probs[inForce] >= params.minMargin;
      if !extendsStreak {
        candidate, streak := -1, 0;
      } else if top == candidate {
        streak := streak + 1;
      } else {
        candidate, streak := top, 1;
      }
      if top == REKEY_ACTION_IDX {
        if rekeyBlockedFor == 0 {
          rekeyBlockedFor := params.rekeyCooldownTicks;
          var reason := REASON_REKEY;
          if params.rekeyEscalates {
            var best := MaxKey(probs, KEM_ACTIONS);
            if ACTION_SECURITY[best] > ACTION_SECURITY[inForce] {
              inForce := best;
              reason := REASON_REKEY_ESCALATED;
            }
          }
          return PyDecision(inForce, false, true, reason);
        }
        return PyDecision(inForce, false, false, REASON_REKEY_SUPPRESSED);
      }
      if top == inForce {
        return PyDecision(inForce, false, false, REASON_AGREES);
      }
      if !extendsStreak {
        return PyDecision(inForce, false, false, REASON_LOW_MARGIN);
      }
      if streak >= params.confirmTicks {
        inForce := top;
        candidate, streak := -1, 0;
        return PyDecision(inForce, true, false, REASON_CONFIRMED);
      }
      return PyDecision(inForce, false, false, REASON_ON_STREAK);
    }
  }
}
