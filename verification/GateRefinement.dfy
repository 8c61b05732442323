/** The Rust gate is a port of the Python one: every run gives the same decisions. */
module GateRefinement {
  import opened Kem
  import opened Gate
  import Py = PyGate

  function PyParamsOf(g: Params): Py.PyParams {
    Py.PyParams(g.confirmTicks, g.minMargin, g.rekeyCooldownTicks, g.rekeyEscalates)
  }

  /** The Rust state that stands for a Python one: a level for an index, None for -1. */
  predicate Related(s: State, t: Py.PyState) {
    t.inForce == s.inForce.WireCode()
    && t.candidate == (if s.candidate.Some? then s.candidate.value else -1)
    && t.streak == s.streak && t.rekeyBlockedFor == s.rekeyBlockedFor
  }

  predicate SameDecision(d: Decision, e: Py.PyDecision) {
    e.inForce == d.inForce.WireCode() && e.changeAlgorithm == d.changeAlgorithm && e.rekey == d.rekey && e.reason == d.reason
  }

  /** Both searches return the first index of the largest value, so they agree on ties too. */
  lemma SameTop(p: Probs)
    ensures Py.PyTop(p) == Top(p)
    ensures Py.MaxKey(p, Py.KEM_ACTIONS) == ArgMax(p, 0, REKEY_ACTION)
  {
    assert [0, 1, 2, 3][..3] == [0, 1, 2] && [0, 1, 2][..2] == [0, 1] && [0, 1][..1] == [0];
    assert Py.MaxKey(p, [0]) == ArgMax(p, 0, 1);
    assert Py.MaxKey(p, [0, 1]) == ArgMax(p, 0, 2);
    assert Py.MaxKey(p, [0, 1, 2]) == ArgMax(p, 0, 3);
  }

  /** Security ranks order the KEMs as the Rust enumeration does. */
  lemma SameOrder(a: Level, b: Level)
    ensures Py.ACTION_SECURITY[b.WireCode()] > Py.ACTION_SECURITY[a.WireCode()] <==> a.WeakerThan(b)
  {
  }

  lemma RekeyTickRefines(g: Params, s: State, t: Py.PyState, p: Probs)
    requires Related(s, t) && Top(p) == REKEY_ACTION
    ensures Related(Step(g, s, p).0, Py.PyStep(PyParamsOf(g), t, p).0)
    ensures SameDecision(Step(g, s, p).1, Py.PyStep(PyParamsOf(g), t, p).1)
  {
    SameTop(p);
    SameOrder(s.inForce, LevelAt(ArgMax(p, 0, REKEY_ACTION)));
  }

  lemma StepRefines(g: Params, s: State, t: Py.PyState, p: Probs)
    requires Related(s, t)
    ensures Py.IsKem(t.inForce)
    ensures Related(Step(g, s, p).0, Py.PyStep(PyParamsOf(g), t, p).0)
    ensures SameDecision(Step(g, s, p).1, Py.PyStep(PyParamsOf(g), t, p).1)
  {
    SameTop(p);
    if Top(p) == REKEY_ACTION {
      RekeyTickRefines(g, s, t, p);
    } else if Extends(g, s.inForce, p) {
    } else {
    }
  }

  function Decisions(g: Params, s: State, ticks: seq<Probs>): seq<Decision>
    decreases |ticks|
  {
    if ticks == [] then []
    else [Step(g, s, ticks[0]).1] + Decisions(g, Step(g, s, ticks[0]).0, ticks[1..])
  }

  /** The decisions of a Python run, as long as `in_force` stays a KEM index. */
  function PyDecisions(g: Py.PyParams, t: Py.PyState, ticks: seq<Probs>): seq<Py.PyDecision>
    decreases |ticks|
  {
    if ticks == [] || !Py.IsKem(t.inForce) then []
    else [Py.PyStep(g, t, ticks[0]).1] + PyDecisions(g, Py.PyStep(g, t, ticks[0]).0, ticks[1..])
  }

  lemma {:induction false} RunRefines(g: Params, s: State, t: Py.PyState, ticks: seq<Probs>)
    requires Related(s, t)
    ensures |PyDecisions(PyParamsOf(g), t, ticks)| == |Decisions(g, s, ticks)| == |ticks|
    ensures forall n :: 0 <= n < |ticks| ==>
      SameDecision(Decisions(g, s, ticks)[n], PyDecisions(PyParamsOf(g), t, ticks)[n])
    decreases |ticks|
  {
    if ticks != [] {
      StepRefines(g, s, t, ticks[0]);
      RunRefines(g, Step(g, s, ticks[0]).0, Py.PyStep(PyParamsOf(g), t, ticks[0]).0, ticks[1..]);
    }
  }

  /** Tick for tick, reasons included, the Rust gate decides what the Python gate decides: for every
      parameter set, every initial KEM and every sequence of ticks. */
  lemma RustGateRefinesPython(g: Params, initial: Level, ticks: seq<Probs>)
    ensures var rust := Decisions(g, Fresh(initial), ticks);
      var python := PyDecisions(PyParamsOf(g), Py.PyState(initial.WireCode(), -1, 0, 0), ticks);
      |rust| == |python| == |ticks|
      && forall n :: 0 <= n < |ticks| ==> SameDecision(rust[n], python[n])
  {
    RunRefines(g, Fresh(initial), Py.PyState(initial.WireCode(), -1, 0, 0), ticks);
  }
}
