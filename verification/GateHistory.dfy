/** What the gate's counters mean: every decision as a condition on the ticks that led to it. */
module GateHistory {
  import opened Bytes
  import opened Kem
  import opened Gate

  /** The gate after a run from a fresh start. */
  function After(g: Params, initial: Level, ticks: seq<Probs>): State {
    if ticks == [] then Fresh(initial)
    else Step(g, After(g, initial, ticks[..|ticks| - 1]), ticks[|ticks| - 1]).0
  }

  /** The decision on tick `n`. */
  function DecisionAt(g: Params, initial: Level, ticks: seq<Probs>, n: nat): Decision
    requires n < |ticks|
  {
    Step(g, After(g, initial, ticks[..n]), ticks[n]).1
  }

  /** The algorithm in force before tick `n`. */
  function InForceBefore(g: Params, initial: Level, ticks: seq<Probs>, n: nat): Level
    requires n <= |ticks|
  {
    After(g, initial, ticks[..n]).inForce
  }

  // ---- confirmation -------------------------------------------------------------------------

  /** The first index in 0..n with the largest mass is the one the search finds. */
  lemma OneFirstMax(p: Probs, n: nat, i: nat)
    requires 0 < n <= ACTION_COUNT
    ensures IsFirstMax(p, 0, n, i) <==> i == ArgMax(p, 0, n)
  {
  }

  /** `top` has the largest of the four masses, is a KEM other than `inForce`, and leads it by the margin. */
  predicate Challenges(g: Params, inForce: Level, p: Probs, top: nat) {
    IsFirstMax(p, 0, 4, top) && top < 3 && top != inForce.WireCode() && p[top] - p[inForce.WireCode()] >= g.minMargin
  }

  lemma ChallengeExtends(g: Params, inForce: Level, p: Probs, top: nat)
    ensures Challenges(g, inForce, p, top) <==> Top(p) == top && Extends(g, inForce, p)
  {
    OneFirstMax(p, 4, top);
  }

  /** On tick `n` the KEM `top` challenged `inForce`, which was in force, and cleared the margin. */
  predicate Won(g: Params, initial: Level, ticks: seq<Probs>, n: nat, top: nat, inForce: Level)
    requires n < |ticks|
  {
    InForceBefore(g, initial, ticks, n) == inForce && Challenges(g, inForce, ticks[n], top)
  }

  /** `top` won each of the last `k` ticks against the same in-force algorithm. */
  predicate WonLast(g: Params, initial: Level, ticks: seq<Probs>, k: nat, top: nat, inForce: Level) {
    k <= |ticks| && forall n :: |ticks| - k <= n < |ticks| ==> Won(g, initial, ticks, n, top, inForce)
  }

  lemma WonLastSnoc(g: Params, initial: Level, ticks: seq<Probs>, p: Probs, k: nat, top: nat, inForce: Level)
    requires k >= 1
    ensures WonLast(g, initial, ticks + [p], k, top, inForce)
      <==> After(g, initial, ticks).inForce == inForce && Top(p) == top && Extends(g, inForce, p)
           && WonLast(g, initial, ticks, k - 1, top, inForce)
  {
    var all := ticks + [p];
    assert all[..|ticks|] == ticks;
    ChallengeExtends(g, inForce, p, top);
    forall n | 0 <= n < |ticks| ensures Won(g, initial, all, n, top, inForce) <==> Won(g, initial, ticks, n, top, inForce) {
      assert all[..n] == ticks[..n];
    }
    if WonLast(g, initial, all, k, top, inForce) {
      assert Won(g, initial, all, |ticks|, top, inForce);
      forall n | |ticks| - (k - 1) <= n < |ticks| ensures Won(g, initial, ticks, n, top, inForce) {
        assert Won(g, initial, all, n, top, inForce);
      }
    }
  }

  /** The streak counter, exactly: it has reached `k` on `top` iff `top` won each of the last `k` ticks. */
  lemma {:induction false} StreakIsHistory(g: Params, initial: Level, ticks: seq<Probs>, k: nat, top: nat)
    requires k >= 1
    ensures var s := After(g, initial, ticks);
      s.candidate == Some(top) && s.streak >= k <==> WonLast(g, initial, ticks, k, top, s.inForce)
    ensures var s := After(g, initial, ticks); (s.candidate.None? <==> s.streak == 0) && s.streak < g.Need()
    decreases |ticks|
  {
    if ticks != [] {
      var last := |ticks| - 1;
      var before, p := ticks[..last], ticks[last];
      assert ticks == before + [p];
      var s := After(g, initial, before);
      var s' := After(g, initial, ticks);
      StreakIsHistory(g, initial, before, k, top);
      WonLastSnoc(g, initial, before, p, k, top, s'.inForce);
      if k > 1 {
        StreakIsHistory(g, initial, before, k - 1, top);
      }
    }
  }

  /** A tick changes the algorithm exactly when one KEM has now won `confirm_ticks` ticks in a row (one, if
      that is 0), each against the same in-force algorithm and by the margin; and it changes to that KEM. */
  lemma ConfirmedExactly(g: Params, initial: Level, ticks: seq<Probs>)
    requires ticks != []
    ensures var n := |ticks| - 1;
      var d := DecisionAt(g, initial, ticks, n);
      d.changeAlgorithm <==> WonLast(g, initial, ticks, g.Need(), Top(ticks[n]), InForceBefore(g, initial, ticks, n))
    ensures var n := |ticks| - 1;
      DecisionAt(g, initial, ticks, n).changeAlgorithm ==>
        DecisionAt(g, initial, ticks, n).inForce.WireCode() == Top(ticks[n])
  {
    var n := |ticks| - 1;
    var before, p := ticks[..n], ticks[n];
    assert ticks == before + [p];
    var s := After(g, initial, before);
    WonLastSnoc(g, initial, before, p, g.Need(), Top(p), s.inForce);
    StreakIsHistory(g, initial, before, 1, Top(p));
    if g.Need() > 1 {
      StreakIsHistory(g, initial, before, g.Need() - 1, Top(p));
    }
  }

  /** The algorithm in force moves on two kinds of tick only: a confirmed change, and a rekey, which can only
      strengthen it. So it weakens on no tick but a confirmed one. */
  lemma WeakensOnlyWhenConfirmed(g: Params, initial: Level, ticks: seq<Probs>, n: nat)
    requires n < |ticks|
    ensures var d := DecisionAt(g, initial, ticks, n);
      && d.inForce == InForceBefore(g, initial, ticks, n + 1)
      && !(d.changeAlgorithm && d.rekey)
      && (d.inForce != InForceBefore(g, initial, ticks, n) ==> d.changeAlgorithm || d.rekey)
      && (d.inForce.WeakerThan(InForceBefore(g, initial, ticks, n)) ==> d.changeAlgorithm)
      && (d.changeAlgorithm ==> d.inForce != InForceBefore(g, initial, ticks, n))
  {
    assert ticks[..n + 1][..n] == ticks[..n];
  }

  // ---- cooldown -----------------------------------------------------------------------------

  predicate RekeyAt(g: Params, initial: Level, ticks: seq<Probs>, n: nat) {
    n < |ticks| && DecisionAt(g, initial, ticks, n).rekey
  }

  /** Some rekey fired within the last `w` of the ticks. */
  ghost predicate RekeyWithin(g: Params, initial: Level, ticks: seq<Probs>, w: int) {
    exists m: nat :: RekeyAt(g, initial, ticks, m) && m >= |ticks| - w
  }

  lemma RekeyWithinSnoc(g: Params, initial: Level, ticks: seq<Probs>, p: Probs, w: int)
    ensures RekeyWithin(g, initial, ticks + [p], w)
      <==> (Step(g, After(g, initial, ticks), p).1.rekey && w >= 1) || RekeyWithin(g, initial, ticks, w - 1)
  {
    var all := ticks + [p];
    forall m: nat | m < |ticks| ensures RekeyAt(g, initial, all, m) <==> RekeyAt(g, initial, ticks, m) {
      assert all[..m] == ticks[..m];
    }
    assert all[..|ticks|] == ticks;
    assert RekeyAt(g, initial, all, |ticks|) <==> Step(g, After(g, initial, ticks), p).1.rekey;
    if RekeyWithin(g, initial, ticks, w - 1) {
      var m: nat :| RekeyAt(g, initial, ticks, m) && m >= |ticks| - (w - 1);
      assert RekeyAt(g, initial, all, m);
    }
  }

  /** The cooldown counter, exactly. */
  lemma {:induction false} CooldownIsHistory(g: Params, initial: Level, ticks: seq<Probs>, b: nat)
    requires b >= 1
    ensures After(g, initial, ticks).rekeyBlockedFor >= b
      <==> RekeyWithin(g, initial, ticks, g.rekeyCooldownTicks - b + 1)
    ensures After(g, initial, ticks).rekeyBlockedFor <= g.rekeyCooldownTicks
    decreases |ticks|
  {
    if ticks != [] {
      var before, p := ticks[..|ticks| - 1], ticks[|ticks| - 1];
      CooldownIsHistory(g, initial, before, b + 1);
      assert ticks == before + [p];
      RekeyWithinSnoc(g, initial, before, p, g.rekeyCooldownTicks - b + 1);
    }
  }

  /** A tick that asks for a rekey is refused exactly when one fired within the previous cooldown - 1 ticks. */
  lemma SuppressedExactly(g: Params, initial: Level, ticks: seq<Probs>)
    requires ticks != [] && Top(ticks[|ticks| - 1]) == REKEY_ACTION
    ensures !DecisionAt(g, initial, ticks, |ticks| - 1).rekey
      <==> RekeyWithin(g, initial, ticks[..|ticks| - 1], g.rekeyCooldownTicks - 1)
  {
    CooldownIsHistory(g, initial, ticks[..|ticks| - 1], 2);
  }

  // ---- the whole decision ---------------------------------------------------------------------

  /** Every decision of every run, from the masses of its tick and what came before: `top` is the first of the four with
      the largest mass, `kem` the first of the three KEMs. */
  lemma DecisionExactly(g: Params, initial: Level, ticks: seq<Probs>, top: nat, kem: nat)
    requires ticks != [] && IsFirstMax(ticks[|ticks| - 1], 0, 4, top) && IsFirstMax(ticks[|ticks| - 1], 0, 3, kem)
    ensures var n := |ticks| - 1;
      var p, inForce := ticks[n], InForceBefore(g, initial, ticks, n);
      var levels := [MlKem512, MlKem768, MlKem1024];
      DecisionAt(g, initial, ticks, n) ==
        if top == 3 then
          if RekeyWithin(g, initial, ticks[..n], g.rekeyCooldownTicks - 1) then
            Decision(inForce, false, false, "rekey suppressed, cooldown still running")
          else if g.rekeyEscalates && kem > inForce.WireCode() then
            Decision(levels[kem], false, true, "rekey requested; escalating to the policy's top-ranked KEM")
          else Decision(inForce, false, true, "rekey requested and cooldown clear")
        else if levels[top] == inForce then Decision(inForce, false, false, "policy agrees with in-force")
        else if p[top] - p[inForce.WireCode()] < g.minMargin then
          Decision(inForce, false, false, "challenger margin below the minimum")
        else if WonLast(g, initial, ticks, if g.confirmTicks == 0 then 1 else g.confirmTicks, top, inForce) then
          Decision(levels[top], true, false, "challenger confirmed for the full streak")
        else Decision(inForce, false, false, "challenger on streak, not yet confirmed")
  {
    var p := ticks[|ticks| - 1];
    OneFirstMax(p, 4, top);
    OneFirstMax(p, 3, kem);
    ConfirmedExactly(g, initial, ticks);
    CooldownIsHistory(g, initial, ticks[..|ticks| - 1], 2);
  }

  // ---- budget -------------------------------------------------------------------------------

  function Changes(g: Params, initial: Level, ticks: seq<Probs>): nat {
    if ticks == [] then 0
    else
      var now := if DecisionAt(g, initial, ticks, |ticks| - 1).changeAlgorithm then 1 else 0;
      Changes(g, initial, ticks[..|ticks| - 1]) + now
  }

  function Rekeys(g: Params, initial: Level, ticks: seq<Probs>): nat {
    if ticks == [] then 0
    else
      var now := if DecisionAt(g, initial, ticks, |ticks| - 1).rekey then 1 else 0;
      Rekeys(g, initial, ticks[..|ticks| - 1]) + now
  }

  /** What a run of n ticks can cost: every change uses up `confirm_ticks` ticks, every rekey one more, and
      rekeys are at least `cooldown` ticks apart. */
  lemma {:induction false} HandshakeBudget(g: Params, initial: Level, ticks: seq<Probs>)
    ensures g.Need() * Changes(g, initial, ticks) + Rekeys(g, initial, ticks) + After(g, initial, ticks).streak <= |ticks|
    ensures ticks != [] ==>
      g.rekeyCooldownTicks * Rekeys(g, initial, ticks) <= |ticks| - 1 + After(g, initial, ticks).rekeyBlockedFor
    ensures After(g, initial, ticks).rekeyBlockedFor <= g.rekeyCooldownTicks
    ensures g.rekeyCooldownTicks >= 1 ==>
      g.rekeyCooldownTicks * Rekeys(g, initial, ticks) <= |ticks| + g.rekeyCooldownTicks - 1
  {
    if ticks != [] {
      var last := |ticks| - 1;
      var before := ticks[..last];
      HandshakeBudget(g, initial, before);
      BudgetStep(g, initial, before, ticks[last]);
      MulStep(g.Need(), Changes(g, initial, before));
      MulStep(g.rekeyCooldownTicks, Rekeys(g, initial, before));
    }
  }

  lemma MulStep(a: nat, b: nat)
    ensures a * (b + 1) == a * b + a
  {
  }

  /** What one tick spends: its own slot, or the streak that led to a change. */
  lemma BudgetStep(g: Params, initial: Level, ticks: seq<Probs>, p: Probs)
    ensures var s := After(g, initial, ticks);
      var (s', d) := Step(g, s, p);
      && (d.changeAlgorithm ==> s.streak + 1 >= g.Need() && s'.streak == 0 && !d.rekey)
      && (d.rekey ==> s'.streak == 0 && s.rekeyBlockedFor <= 1 && s'.rekeyBlockedFor == g.rekeyCooldownTicks)
      && s'.streak <= s.streak + 1
      && (!d.rekey ==> s'.rekeyBlockedFor == if s.rekeyBlockedFor > 0 then s.rekeyBlockedFor - 1 else 0)
  {
  }
}
