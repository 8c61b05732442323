/** The idle sweep interleaved with the connection handlers. The sweep takes a snapshot of the idle peers and
    then goes through it, so a peer may come back to life between the snapshot, its eviction from the registry
    and its removal from the interface. This module says exactly what the interface then agrees with. */
module SweepRuns {
  import opened Bytes
  import opened PeerRegistry
  import opened Server
  import opened ServerRuns
  import opened Housekeeping

  // ---- the machine ------------------------------------------------------------------------------

  /** One round of the sweep: what it read at the start, the peers still to visit, and whether it has evicted. */
  datatype Round = Round(handshakes: map<Bytes32, int>, timeout: nat, now: int, todo: set<Bytes32>, evicted: bool)

  datatype Sweep = Resting | Visiting(round: Round) | Removing(key: Bytes32, round: Round)

  datatype System = System(world: World, sweep: Sweep)

  /** One atomic step of a handler or of the sweep thread. `now` is read once a round; `clock` is the time `touch`
      reads; `removed` is whether `wg` takes the peer off the interface. */
  datatype Move =
    | Handle(action: Action)
    | Snapshot(handshakes: map<Bytes32, int>, timeout: nat, now: int)
    | Spare(key: Bytes32, clock: int)
    | Expel(key: Bytes32)
    | Unplug(removed: bool)
    | EndRound(persists: bool)

  predicate Possible(s: System, m: Move) {
    match m
    case Handle(a) => Enabled(s.world, a)
    case Snapshot(_, _, _) => s.sweep.Resting?
    case Spare(key, _) => s.sweep.Visiting? && key in s.sweep.round.todo && IsLive(s.sweep.round, key)
    case Expel(key) => s.sweep.Visiting? && key in s.sweep.round.todo && !IsLive(s.sweep.round, key)
    case Unplug(_) => s.sweep.Removing?
    case EndRound(_) => s.sweep.Visiting? && s.sweep.round.todo == {}
  }

  predicate IsLive(r: Round, key: Bytes32) {
    Live(r.handshakes, key, r.timeout, r.now)
  }

  function Next(c: Context, s: System, m: Move): System
    requires Possible(s, m)
  {
    match m
    case Handle(a) => s.(world := Step(c, s.world, a))
    case Snapshot(handshakes, timeout, now) =>
      s.(sweep := Visiting(Round(handshakes, timeout, now, IdleKeys(s.world.peers, timeout, now), false)))
    case Spare(key, clock) =>
      System(s.world.(peers := Touch(s.world.peers, key, clock)), Visiting(s.sweep.round.(todo := s.sweep.round.todo - {key})))
    case Expel(key) =>
      System(s.world.(peers := s.world.peers - {key}),
        Removing(key, s.sweep.round.(todo := s.sweep.round.todo - {key}, evicted := true)))
    case Unplug(removed) =>
      System(if removed then s.world.(wg := s.world.wg - {s.sweep.key}) else s.world, Visiting(s.sweep.round))
    case EndRound(persists) =>
      System(if s.sweep.round.evicted && persists then s.world.(saved := s.world.peers) else s.world, Resting)
  }

  predicate IsSystemRun(c: Context, states: seq<System>, moves: seq<Move>) {
    |states| == |moves| + 1 && forall n: nat :: n < |moves| ==> MoveAt(c, states, moves, n)
  }

  predicate MoveAt(c: Context, states: seq<System>, moves: seq<Move>, n: nat)
    requires n < |moves| && |states| == |moves| + 1
  {
    Possible(states[n], moves[n]) && states[n + 1] == Next(c, states[n], moves[n])
  }

  /** Where a run begins. */
  predicate CleanSystem(s: System) {
    s.world.handlers == map[] && Agrees(s.world.peers, s.world.wg) && s.sweep.Resting?
  }

  /** A run of the handlers alone is a run of the system in which the sweep rests. */
  lemma HandlersAlone(c: Context, worlds: seq<World>, actions: seq<Action>) returns (states: seq<System>, moves: seq<Move>)
    requires IsRun(c, worlds, actions)
    ensures IsSystemRun(c, states, moves) && |states| == |worlds|
    ensures forall n :: 0 <= n < |worlds| ==> states[n] == System(worlds[n], Resting)
  {
    states := seq(|worlds|, n requires 0 <= n < |worlds| => System(worlds[n], Resting));
    moves := seq(|actions|, n requires 0 <= n < |actions| => Handle(actions[n]));
    forall n: nat | n < |moves| ensures MoveAt(c, states, moves, n) {
      assert StepAt(c, worlds, actions, n);
    }
  }

  // ---- the history behind an interface entry -------------------------------------------------------

  /** At move `m` the registry accepts a session of `key`, new to it, at `ip`: the lowest host then free. */
  predicate Admits(c: Context, states: seq<System>, moves: seq<Move>, m: nat, key: Bytes32, ip: Bytes4) {
    m < |moves| && m < |states| && moves[m].Handle? && moves[m].action.Register?
    && var w, a := states[m].world, moves[m].action;
       a.id in w.handlers && w.handlers[a.id].Confirmed? && w.handlers[a.id].pending.hello.clientWgPubkey == key
       && w.handlers[a.id].pending.rekeyOf.None? && key !in w.peers && |w.peers| < c.settings.maxPeers
       && Alloc(c.settings, w.peers) == Some(ip)
  }

  /** The sweep evicts `key` from the registry between states `s` and `n`. */
  predicate EvictedIn(moves: seq<Move>, s: nat, n: nat, key: Bytes32) {
    exists m :: s <= m < n && m < |moves| && moves[m] == Expel(key)
  }

  /** `key` has been in the registry at `ip` ever since `s`, or was evicted and has been admitted again, at the
      same address, since its last eviction. */
  predicate KeptOrReadmitted(c: Context, states: seq<System>, moves: seq<Move>, s: nat, n: nat, key: Bytes32, ip: Bytes4) {
    !EvictedIn(moves, s, n, key)
    || exists q :: s <= q < n && Admits(c, states, moves, q, key, ip) && !EvictedIn(moves, q, n, key)
  }

  /** The state just after handler `i` last registered; 0 if it never has. */
  function RegisteredAt(moves: seq<Move>, n: nat, i: nat): (s: nat)
    requires n <= |moves|
    ensures s <= n
  {
    if n == 0 then 0
    else if moves[n - 1].Handle? && moves[n - 1].action.Register? && moves[n - 1].action.id == i then n
    else RegisteredAt(moves, n - 1, i)
  }

  /** The state since which `key`'s interface entry has been the registry's: just after the registration of the
      handler that installed it, or the start of the run. */
  function EntrySince(c: Context, states: seq<System>, moves: seq<Move>, n: nat, key: Bytes32): (s: nat)
    requires |states| == |moves| + 1 && n <= |moves|
    ensures s <= n
  {
    if n == 0 then 0
    else if InstallsEntry(states, moves, n - 1, key) then RegisteredAt(moves, n - 1, moves[n - 1].action.id)
    else EntrySince(c, states, moves, n - 1, key)
  }

  /** Move `m` puts an entry of `key` on the interface. */
  predicate InstallsEntry(states: seq<System>, moves: seq<Move>, m: nat, key: Bytes32) {
    m < |moves| && m < |states| && moves[m].Handle? && Installing(moves[m].action, moves[m].action.id)
    && moves[m].action.id in states[m].world.handlers
    && var h := states[m].world.handlers[moves[m].action.id]; h.Registered? && h.pending.hello.clientWgPubkey == key
  }

  // ---- the registry's side -------------------------------------------------------------------------

  predicate Holds(peers: Peers, key: Bytes32, ip: Bytes4) {
    key in peers && peers[key].assignedIp == ip
  }

  /** What one move does to a key's place in the registry. */
  lemma MoveHolds(c: Context, states: seq<System>, moves: seq<Move>, m: nat, key: Bytes32, ip: Bytes4)
    requires IsSystemRun(c, states, moves) && m < |moves|
    ensures Holds(states[m + 1].world.peers, key, ip)
      <==> moves[m] != Expel(key) && (Holds(states[m].world.peers, key, ip) || Admits(c, states, moves, m, key, ip))
  {
    assert MoveAt(c, states, moves, m);
    if moves[m].Handle? && moves[m].action.Register? {
      var w, a := states[m].world, moves[m].action;
      RegisterHolds(c, w.peers, w.handlers[a.id].pending, a.now, key, ip);
    }
  }

  lemma RegisterHolds(c: Context, peers: Peers, pending: Pending, now: int, key: Bytes32, ip: Bytes4)
    ensures Holds(RegistryCall(c, peers, pending, now).0, key, ip)
      <==> Holds(peers, key, ip)
           || (pending.hello.clientWgPubkey == key && pending.rekeyOf.None? && key !in peers && |peers| < c.settings.maxPeers
               && Alloc(c.settings, peers) == Some(ip))
  {
  }

  /** From a state in which the registry has `key` at `ip`: it has it there later exactly when the key was never
      evicted since, or was admitted again at the same address after its last eviction. */
  lemma {:induction false} HeldExactly(c: Context, states: seq<System>, moves: seq<Move>, s: nat, n: nat, key: Bytes32, ip: Bytes4)
    requires IsSystemRun(c, states, moves) && s <= n < |states| && Holds(states[s].world.peers, key, ip)
    ensures Holds(states[n].world.peers, key, ip) <==> KeptOrReadmitted(c, states, moves, s, n, key, ip)
    decreases n
  {
    if s < n {
      HeldExactly(c, states, moves, s, n - 1, key, ip);
      MoveHolds(c, states, moves, n - 1, key, ip);
      KeptNext(c, states, moves, s, n, key, ip);
    }
  }

  lemma KeptNext(c: Context, states: seq<System>, moves: seq<Move>, s: nat, n: nat, key: Bytes32, ip: Bytes4)
    requires s < n <= |moves|
    ensures KeptOrReadmitted(c, states, moves, s, n, key, ip)
      <==> moves[n - 1] != Expel(key)
           && (KeptOrReadmitted(c, states, moves, s, n - 1, key, ip) || Admits(c, states, moves, n - 1, key, ip))
  {
    EvictedNext(moves, s, n, key);
    forall q | s <= q < n ensures EvictedIn(moves, q, n, key) <==> moves[n - 1] == Expel(key) || EvictedIn(moves, q, n - 1, key) {
      EvictedNext(moves, q, n, key);
    }
    if q :| s <= q < n && Admits(c, states, moves, q, key, ip) && !EvictedIn(moves, q, n, key) {
      assert q < n - 1 ==> !EvictedIn(moves, q, n - 1, key);
    }
    if moves[n - 1] != Expel(key) && Admits(c, states, moves, n - 1, key, ip) {
      assert !EvictedIn(moves, n - 1, n, key);
    }
    if moves[n - 1] == Expel(key) {
      assert EvictedIn(moves, s, n, key);
    }
  }

  lemma EvictedNext(moves: seq<Move>, s: nat, n: nat, key: Bytes32)
    requires s < n <= |moves|
    ensures EvictedIn(moves, s, n, key) <==> moves[n - 1] == Expel(key) || EvictedIn(moves, s, n - 1, key)
  {
    if moves[n - 1] == Expel(key) {
      assert s <= n - 1 < n;
    }
  }

  // ---- the interface's side ------------------------------------------------------------------------

  /** A handler in its window was given its slot by the registry as it was just after the handler registered. */
  predicate SlotSince(states: seq<System>, moves: seq<Move>, n: nat, i: nat)
    requires |states| == |moves| + 1 && n <= |moves|
  {
    i in states[n].world.handlers && states[n].world.handlers[i].Registered? ==>
      var h := states[n].world.handlers[i];
      Holds(states[RegisteredAt(moves, n, i)].world.peers, h.pending.hello.clientWgPubkey, h.slot.assignedIp)
  }

  /** An interface entry has the address the registry had for its key at `EntrySince`. */
  predicate EntryHeld(c: Context, states: seq<System>, moves: seq<Move>, n: nat, key: Bytes32)
    requires |states| == |moves| + 1 && n <= |moves|
  {
    key in states[n].world.wg ==>
      Holds(states[EntrySince(c, states, moves, n, key)].world.peers, key, states[n].world.wg[key].allowedIp)
  }

  lemma SlotNext(c: Context, states: seq<System>, moves: seq<Move>, n: nat, i: nat)
    requires IsSystemRun(c, states, moves) && n < |moves| && SlotSince(states, moves, n, i)
    ensures SlotSince(states, moves, n + 1, i)
  {
    assert MoveAt(c, states, moves, n);
    if moves[n].Handle? {
      var w, a := states[n].world, moves[n].action;
      if a.id != i {
        OtherHandlersKept(c, w, a, i);
      } else if HasPending(states[n + 1].world.handlers[i]) {
        OwnStep(c, w, a, states[n + 1].world.handlers[i]);
        if a.Register? {
          RegistryCallGrows(c, w.peers, w.handlers[i].pending, a.now);
        }
      }
    }
  }

  lemma EntryNext(c: Context, states: seq<System>, moves: seq<Move>, n: nat, key: Bytes32)
    requires IsSystemRun(c, states, moves) && n < |moves| && EntryHeld(c, states, moves, n, key)
    requires moves[n].Handle? ==> SlotSince(states, moves, n, moves[n].action.id)
    ensures EntryHeld(c, states, moves, n + 1, key)
  {
    assert MoveAt(c, states, moves, n);
  }

  lemma {:induction false} EntriesHeld(c: Context, states: seq<System>, moves: seq<Move>, n: nat)
    requires IsSystemRun(c, states, moves) && n < |states| && CleanSystem(states[0])
    ensures forall i :: SlotSince(states, moves, n, i)
    ensures forall key :: EntryHeld(c, states, moves, n, key)
    decreases n
  {
    if n > 0 {
      EntriesHeld(c, states, moves, n - 1);
      forall i ensures SlotSince(states, moves, n, i) {
        SlotNext(c, states, moves, n - 1, i);
      }
      forall key ensures EntryHeld(c, states, moves, n, key) {
        EntryNext(c, states, moves, n - 1, key);
      }
    }
  }

  // ---- the exact condition -------------------------------------------------------------------------

  /** The sweep has not come between the registration behind `key`'s interface entry and now, or the key was
      admitted again at the same address since. */
  predicate Undisturbed(c: Context, states: seq<System>, moves: seq<Move>, n: nat, key: Bytes32)
    requires |states| == |moves| + 1 && n < |states| && key in states[n].world.wg
  {
    KeptOrReadmitted(c, states, moves, EntrySince(c, states, moves, n, key), n, key, states[n].world.wg[key].allowedIp)
  }

  /** With the sweep running alongside any number of handlers, the interface agrees with the registry exactly when
      no entry's key was evicted after the registration that the entry came from, except those that were admitted
      again, after their last eviction, at the address they had. */
  lemma AgreesExactly(c: Context, states: seq<System>, moves: seq<Move>, n: nat)
    requires IsSystemRun(c, states, moves) && n < |states| && CleanSystem(states[0])
    ensures Agrees(states[n].world.peers, states[n].world.wg)
      <==> forall key :: key in states[n].world.wg ==> Undisturbed(c, states, moves, n, key)
  {
    EntriesHeld(c, states, moves, n);
    forall key | key in states[n].world.wg
      ensures Holds(states[n].world.peers, key, states[n].world.wg[key].allowedIp) <==> Undisturbed(c, states, moves, n, key)
    {
      assert EntryHeld(c, states, moves, n, key);
      HeldExactly(c, states, moves, EntrySince(c, states, moves, n, key), n, key, states[n].world.wg[key].allowedIp);
    }
    forall key | key in states[n].world.wg && Holds(states[n].world.peers, key, states[n].world.wg[key].allowedIp)
      ensures key in states[n].world.peers
    {
    }
  }

  // ---- a sufficient condition: no eviction in a window --------------------------------------------

  /** Handler `i` is between its registration and its install of `key`. */
  predicate Waits(s: System, i: nat, key: Bytes32) {
    i in s.world.handlers && s.world.handlers[i].Registered? && s.world.handlers[i].pending.hello.clientWgPubkey == key
  }

  /** No key is evicted while a handler waits to install it, and `wg` removes every peer it is asked to. */
  predicate SweepsApart(states: seq<System>, moves: seq<Move>, n: nat)
    requires n <= |moves| && |states| == |moves| + 1
  {
    && (forall m, i :: 0 <= m < n && moves[m].Expel? && i in states[m].world.handlers ==> !Waits(states[m], i, moves[m].key))
    && (forall m :: 0 <= m < n && moves[m].Unplug? ==> moves[m].removed)
  }

  /** Waiting handlers hold their slots, and every entry is the registry's but the one being removed. */
  predicate Orderly(s: System) {
    && (forall i :: i in s.world.handlers && s.world.handlers[i].Registered? ==> WaiterHolds(s.world.peers, s.world.handlers[i]))
    && (forall key :: key in s.world.wg && !(s.sweep.Removing? && s.sweep.key == key) ==>
          Holds(s.world.peers, key, s.world.wg[key].allowedIp))
  }

  predicate WaiterHolds(peers: Peers, h: Handler)
    requires h.Registered?
  {
    Holds(peers, h.pending.hello.clientWgPubkey, h.slot.assignedIp)
  }

  lemma OrderlyStep(c: Context, s: System, a: Action)
    requires Enabled(s.world, a) && Orderly(s)
    ensures Orderly(Next(c, s, Handle(a)))
  {
    var s' := Next(c, s, Handle(a));
    StepGrows(c, s.world, a);
    forall i | i in s'.world.handlers && s'.world.handlers[i].Registered?
      ensures WaiterHolds(s'.world.peers, s'.world.handlers[i])
    {
      if a.id != i {
        OtherHandlersKept(c, s.world, a, i);
        assert WaiterHolds(s.world.peers, s.world.handlers[i]);
      } else {
        OwnStep(c, s.world, a, s'.world.handlers[i]);
        RegistryCallGrows(c, s.world.peers, s.world.handlers[i].pending, a.now);
      }
    }
    if a.Install? {
      assert WaiterHolds(s.world.peers, s.world.handlers[a.id]);
    }
  }

  lemma OrderlyNext(c: Context, s: System, m: Move)
    requires Possible(s, m) && Orderly(s)
    requires m.Expel? ==> forall i :: i in s.world.handlers ==> !Waits(s, i, m.key)
    requires m.Unplug? ==> m.removed
    ensures Orderly(Next(c, s, m))
  {
    if m.Handle? {
      OrderlyStep(c, s, m.action);
    } else {
      forall i | i in s.world.handlers && s.world.handlers[i].Registered?
        ensures WaiterHolds(Next(c, s, m).world.peers, s.world.handlers[i])
      {
        assert WaiterHolds(s.world.peers, s.world.handlers[i]);
        assert m.Expel? ==> !Waits(s, i, m.key);
      }
    }
  }

  /** Hence: if no key is evicted while a handler waits to install it, and removals succeed, the interface agrees
      with the registry whenever the sweep is not between an eviction and its removal; and then but for that key. */
  lemma {:induction false} SeparateSweepsAgree(c: Context, states: seq<System>, moves: seq<Move>, n: nat)
    requires IsSystemRun(c, states, moves) && n < |states| && CleanSystem(states[0]) && SweepsApart(states, moves, n)
    ensures Orderly(states[n])
    ensures !states[n].sweep.Removing? ==> Agrees(states[n].world.peers, states[n].world.wg)
    decreases n
  {
    if n > 0 {
      SeparateSweepsAgree(c, states, moves, n - 1);
      assert MoveAt(c, states, moves, n - 1);
      OrderlyNext(c, states[n - 1], moves[n - 1]);
    }
    if !states[n].sweep.Removing? {
      OrderlyAgrees(states[n]);
    }
  }

  lemma OrderlyAgrees(s: System)
    requires Orderly(s) && !s.sweep.Removing?
    ensures Agrees(s.world.peers, s.world.wg)
  {
    forall key | key in s.world.wg ensures key in s.world.peers && s.world.wg[key].allowedIp == s.world.peers[key].assignedIp {
      assert Holds(s.world.peers, key, s.world.wg[key].allowedIp);
    }
  }

  // ---- when an eviction can fall into a window ------------------------------------------------------

  /** The time a move reads, if it reads one. */
  function TimeOf(m: Move): Option<int> {
    match m
    case Handle(a) => if a.Register? then Some(a.now) else None
    case Snapshot(_, _, now) => Some(now)
    case Spare(_, clock) => Some(clock)
    case _ => None
  }

  predicate ClockAdvances(moves: seq<Move>) {
    forall a, b :: 0 <= a < b < |moves| && TimeOf(moves[a]).Some? && TimeOf(moves[b]).Some? ==>
      TimeOf(moves[a]).value <= TimeOf(moves[b]).value
  }

  /** At move `r` handler `i` registered a session of `key`. */
  predicate Opened(c: Context, states: seq<System>, moves: seq<Move>, r: nat, i: nat, key: Bytes32) {
    r < |moves| && r < |states| && moves[r].Handle? && moves[r].action.Register? && moves[r].action.id == i
    && i in states[r].world.handlers && states[r].world.handlers[i].Confirmed?
    && var p := states[r].world.handlers[i].pending;
       p.hello.clientWgPubkey == key && RegistryCall(c, states[r].world.peers, p, moves[r].action.now).1.Ok?
  }

  lemma {:induction false} FindOpening(c: Context, states: seq<System>, moves: seq<Move>, n: nat, i: nat, key: Bytes32) returns (r: nat)
    requires IsSystemRun(c, states, moves) && n < |states| && CleanSystem(states[0]) && Waits(states[n], i, key)
    ensures r < n && Opened(c, states, moves, r, i, key)
    decreases n
  {
    assert MoveAt(c, states, moves, n - 1);
    var s, m := states[n - 1], moves[n - 1];
    if m.Handle? && m.action.id == i {
      OwnStep(c, s.world, m.action, states[n].world.handlers[i]);
      r := n - 1;
    } else {
      if m.Handle? {
        OtherHandlersKept(c, s.world, m.action, i);
      }
      r := FindOpening(c, states, moves, n - 1, i, key);
    }
  }

  /** A registered peer's last activity is not before any registration of it. */
  lemma {:induction false} ActiveSince(c: Context, states: seq<System>, moves: seq<Move>, r: nat, n: nat, i: nat, key: Bytes32)
    requires IsSystemRun(c, states, moves) && r < n < |states| && ClockAdvances(moves) && Opened(c, states, moves, r, i, key)
    ensures key in states[n].world.peers ==> states[n].world.peers[key].lastActivity >= moves[r].action.now
    decreases n
  {
    assert MoveAt(c, states, moves, n - 1);
    assert TimeOf(moves[r]) == Some(moves[r].action.now);
    if r < n - 1 {
      ActiveSince(c, states, moves, r, n - 1, i, key);
      if key in states[n].world.peers {
        ActivityStep(c, states[n - 1], moves[n - 1], key);
      }
    } else {
      OpeningActivity(c, states[r].world.peers, states[r].world.handlers[i].pending, moves[r].action.now);
    }
  }

  lemma OpeningActivity(c: Context, peers: Peers, pending: Pending, now: int)
    requires RegistryCall(c, peers, pending, now).1.Ok?
    ensures var key := pending.hello.clientWgPubkey;
      key in RegistryCall(c, peers, pending, now).0 && RegistryCall(c, peers, pending, now).0[key].lastActivity == now
  {
  }

  /** A move leaves a peer's last activity alone or sets it to the time the move reads. */
  lemma ActivityStep(c: Context, s: System, m: Move, key: Bytes32)
    requires Possible(s, m) && key in Next(c, s, m).world.peers
    ensures var last := Next(c, s, m).world.peers[key].lastActivity;
      (key in s.world.peers && last == s.world.peers[key].lastActivity) || TimeOf(m) == Some(last)
  {
  }

  /** The snapshot a round began with: everything it still has to visit, or is removing, was idle then. */
  lemma {:induction false} FindSnapshot(c: Context, states: seq<System>, moves: seq<Move>, n: nat) returns (s: nat)
    requires IsSystemRun(c, states, moves) && n < |states| && CleanSystem(states[0]) && !states[n].sweep.Resting?
    ensures s < n && moves[s].Snapshot?
    ensures var round := states[n].sweep.round;
      round.now == moves[s].now && round.timeout == moves[s].timeout
      && round.todo <= IdleKeys(states[s].world.peers, round.timeout, round.now)
    decreases n
  {
    assert MoveAt(c, states, moves, n - 1);
    if moves[n - 1].Snapshot? {
      s := n - 1;
    } else {
      s := FindSnapshot(c, states, moves, n - 1);
    }
  }

  /** When clocks do not run backwards, an eviction falls between a handler's registration and its install only if
      the sweep took its snapshot before the registration, or the handler has been waiting for longer than the
      idle timeout. */
  lemma EvictionInWindow(c: Context, states: seq<System>, moves: seq<Move>, e: nat, i: nat, key: Bytes32) returns (s: nat, r: nat)
    requires IsSystemRun(c, states, moves) && e < |moves| && CleanSystem(states[0]) && ClockAdvances(moves)
    requires moves[e] == Expel(key) && Waits(states[e], i, key)
    ensures s < e && moves[s].Snapshot? && r < e && Opened(c, states, moves, r, i, key)
    ensures s < r || moves[s].now - moves[r].action.now > moves[s].timeout
  {
    r := FindOpening(c, states, moves, e, i, key);
    assert MoveAt(c, states, moves, e);
    s := FindSnapshot(c, states, moves, e);
    if r < s {
      ActiveSince(c, states, moves, r, s, i, key);
    }
  }

  // ---- building runs --------------------------------------------------------------------------------

  ghost predicate SystemReaches(c: Context, s: System, s': System) {
    exists states, moves :: SystemPath(c, s, s', states, moves)
  }

  predicate SystemPath(c: Context, s: System, s': System, states: seq<System>, moves: seq<Move>) {
    IsSystemRun(c, states, moves) && states[0] == s && states[|states| - 1] == s'
  }

  lemma SystemReachesItself(c: Context, s: System)
    ensures SystemReaches(c, s, s)
  {
    assert SystemPath(c, s, s, [s], []);
  }

  lemma SystemReachesNext(c: Context, s: System, last: System, m: Move)
    requires SystemReaches(c, s, last) && Possible(last, m)
    ensures SystemReaches(c, s, Next(c, last, m))
  {
    var states, moves :| SystemPath(c, s, last, states, moves);
    var states', moves' := states + [Next(c, last, m)], moves + [m];
    forall n: nat | n < |moves'| ensures MoveAt(c, states', moves', n) {
      assert n < |moves| ==> MoveAt(c, states, moves, n);
    }
    assert SystemPath(c, s, Next(c, last, m), states', moves');
  }

  // ---- an undisturbed round ---------------------------------------------------------------------------

  /** The peers a round has still to evict. */
  function Doomed(r: Round): set<Bytes32> {
    set k | k in r.todo && !IsLive(r, k)
  }

  /** `s` once the rest of its round has gone by undisturbed. */
  function RoundDone(s: System, clock: int, stuck: set<Bytes32>): System
    requires s.sweep.Visiting?
  {
    var r := s.sweep.round;
    System(
      s.world.(peers := Partly(s.world.peers, r.todo, Doomed(r), clock), wg := s.world.wg - (Doomed(r) - stuck)),
      Visiting(r.(todo := {}, evicted := r.evicted || Doomed(r) != {})))
  }

  /** `s` once its round has visited `key`. */
  function Visited(s: System, key: Bytes32, clock: int, stuck: set<Bytes32>): System
    requires s.sweep.Visiting? && key in s.sweep.round.todo
  {
    var r := s.sweep.round.(todo := s.sweep.round.todo - {key});
    if IsLive(r, key) then System(s.world.(peers := Touch(s.world.peers, key, clock)), Visiting(r))
    else
      System(s.world.(peers := s.world.peers - {key}, wg := if key in stuck then s.world.wg else s.world.wg - {key}),
        Visiting(r.(evicted := true)))
  }

  lemma VisitReaches(c: Context, start: System, s: System, key: Bytes32, clock: int, stuck: set<Bytes32>)
    requires SystemReaches(c, start, s) && s.sweep.Visiting? && key in s.sweep.round.todo
    ensures SystemReaches(c, start, Visited(s, key, clock, stuck))
  {
    if IsLive(s.sweep.round, key) {
      SystemReachesNext(c, start, s, Spare(key, clock));
    } else {
      SystemReachesNext(c, start, s, Expel(key));
      SystemReachesNext(c, start, Next(c, s, Expel(key)), Unplug(key !in stuck));
    }
  }

  lemma VisitedThenDone(s: System, key: Bytes32, clock: int, stuck: set<Bytes32>)
    requires s.sweep.Visiting? && key in s.sweep.round.todo
    ensures RoundDone(Visited(s, key, clock, stuck), clock, stuck) == RoundDone(s, clock, stuck)
  {
    var r := s.sweep.round;
    var s' := Visited(s, key, clock, stuck);
    var live := IsLive(r, key);
    assert Doomed(s'.sweep.round) == Doomed(r) - {key};
    assert live <==> key !in Doomed(r);
    assert RoundDone(s', clock, stuck).world.peers == RoundDone(s, clock, stuck).world.peers;
    assert RoundDone(s', clock, stuck).world.wg == RoundDone(s, clock, stuck).world.wg;
  }

  lemma {:induction false} RoundReaches(c: Context, start: System, s: System, clock: int, stuck: set<Bytes32>)
    requires SystemReaches(c, start, s) && s.sweep.Visiting?
    ensures SystemReaches(c, start, RoundDone(s, clock, stuck))
    decreases s.sweep.round.todo
  {
    if s.sweep.round.todo == {} {
      assert Doomed(s.sweep.round) == {};
      assert RoundDone(s, clock, stuck).world.peers == s.world.peers;
      assert RoundDone(s, clock, stuck).world.wg == s.world.wg;
      assert RoundDone(s, clock, stuck) == s;
    } else {
      var key :| key in s.sweep.round.todo;
      VisitReaches(c, start, s, key, clock, stuck);
      VisitedThenDone(s, key, clock, stuck);
      RoundReaches(c, start, Visited(s, key, clock, stuck), clock, stuck);
    }
  }

  /** A sweep with nobody beside it, as `SweepOnce` runs it, is a run of the system. */
  lemma SweepOnceIsRun(c: Context, w: World, handshakes: map<Bytes32, int>, timeout: nat, now: int, clock: int,
                       stuck: set<Bytes32>, persists: bool)
    ensures var evicted := EvictedKeys(w.peers, handshakes, timeout, now);
      var peers := Swept(w.peers, handshakes, timeout, now, clock);
      SystemReaches(c, System(w, Resting), System(
        w.(peers := peers, wg := w.wg - (evicted - stuck), saved := if evicted != {} && persists then peers else w.saved),
        Resting))
  {
    var start := System(w, Resting);
    SystemReachesItself(c, start);
    SystemReachesNext(c, start, start, Snapshot(handshakes, timeout, now));
    var s := start.(sweep := Visiting(Round(handshakes, timeout, now, IdleKeys(w.peers, timeout, now), false)));
    RoundReaches(c, start, s, clock, stuck);
    assert Doomed(s.sweep.round) == EvictedKeys(w.peers, handshakes, timeout, now);
    SystemReachesNext(c, start, RoundDone(s, clock, stuck), EndRound(persists));
  }

  // ---- a run that breaks the agreement ---------------------------------------------------------------

  /** `s` with handler `i` at `h`. */
  function SystemWith(s: System, i: nat, h: Handler): System {
    s.(world := With(s.world, i, h))
  }

  lemma SystemReachesConfirmed(c: Context, start: System, s: System, caller: Caller)
    requires Answered(c, caller) && caller.id !in s.world.handlers && SystemReaches(c, start, s)
    ensures SystemReaches(c, start, SystemWith(s, caller.id, Confirmed(caller.Pending())))
  {
    SystemReachesNext(c, start, s, Handle(Accept(caller.id)));
    SystemReachesNext(c, start, SystemWith(s, caller.id, Reading), Handle(FirstOf(caller)));
    FirstStep(c, s.world, caller);
    SystemReachesNext(c, start, SystemWith(s, caller.id, AwaitingFinish(caller.Pending())), Handle(SecondOf(c, caller)));
    SecondStep(c, s.world, caller);
  }

  /** The snapshot, and then a handler that registers the peer again. */
  lemma RegistersAfterSnapshot(c: Context, start: System, caller: Caller, handshakes: map<Bytes32, int>, timeout: nat, now: int,
                               later: int)
    returns (s: System, slot: PeerSlot)
    requires start.world.handlers == map[] && start.sweep.Resting? && Answered(c, caller)
    requires caller.hello.clientWgPubkey in IdleKeys(start.world.peers, timeout, now)
    ensures SystemReaches(c, start, s) && s.world.wg == start.world.wg
    ensures s.world.handlers == map[caller.id := Registered(caller.Pending(), slot)]
    ensures s.sweep == Visiting(Round(handshakes, timeout, now, IdleKeys(start.world.peers, timeout, now), false))
  {
    SystemReachesItself(c, start);
    SystemReachesNext(c, start, start, Snapshot(handshakes, timeout, now));
    var s1 := start.(sweep := Visiting(Round(handshakes, timeout, now, IdleKeys(start.world.peers, timeout, now), false)));
    SystemReachesConfirmed(c, start, s1, caller);
    var s2 := SystemWith(s1, caller.id, Confirmed(caller.Pending()));
    SystemReachesNext(c, start, s2, Handle(Register(caller.id, later, true)));
    s := Next(c, s2, Handle(Register(caller.id, later, true)));
    slot := s.world.handlers[caller.id].slot;
  }

  lemma ExpelledInWindow(c: Context, start: System, s: System, key: Bytes32) returns (s': System)
    requires SystemReaches(c, start, s) && s.sweep.Visiting? && key in s.sweep.round.todo && !IsLive(s.sweep.round, key)
    ensures SystemReaches(c, start, s') && s'.sweep.Visiting?
    ensures s'.world == s.world.(peers := s.world.peers - {key}, wg := s.world.wg - {key})
  {
    SystemReachesNext(c, start, s, Expel(key));
    SystemReachesNext(c, start, Next(c, s, Expel(key)), Unplug(true));
    s' := Next(c, Next(c, s, Expel(key)), Unplug(true));
  }

  /** The race: whenever a peer is idle and WireGuard has not seen it lately, the sweep can take its snapshot, any
      handshake of the peer can register, and the sweep can then evict and remove the peer before the handshake
      installs it. The handshake succeeds, the peer is on the interface, and the registry does not know it. */
  lemma SweepRace(c: Context, start: System, caller: Caller, handshakes: map<Bytes32, int>, timeout: nat, now: int, later: int)
    returns (last: System)
    requires start.world.handlers == map[] && start.sweep.Resting? && Answered(c, caller)
    requires caller.hello.clientWgPubkey in EvictedKeys(start.world.peers, handshakes, timeout, now)
    ensures SystemReaches(c, start, last)
    ensures last.sweep.Visiting? && last.world.handlers.Keys == {caller.id} && last.world.handlers[caller.id].Installed?
    ensures caller.hello.clientWgPubkey in last.world.wg && caller.hello.clientWgPubkey !in last.world.peers
    ensures !Agrees(last.world.peers, last.world.wg)
  {
    var s, slot := RegistersAfterSnapshot(c, start, caller, handshakes, timeout, now, later);
    s := ExpelledInWindow(c, start, s, caller.hello.clientWgPubkey);
    SystemReachesNext(c, start, s, Handle(Install(caller.id, Installs, true)));
    last := Next(c, s, Handle(Install(caller.id, Installs, true)));
    assert last.world.handlers == map[caller.id := Installed(caller.Pending(), slot)];
  }
}
