/**
  Modifier traps: one countdown per index, forced-on bits written through a call that may refuse at any
  time, and a retry list for the lifts it refused. Time is real-valued.
 */
module Traps {

  datatype ActiveTrap = ActiveTrap(index: int, remaining: real)

  datatype TrapArm = Armed | NotReady | Unavailable | Skipped

  // ---- The countdowns ----

  function Indices(traps: seq<ActiveTrap>): seq<int> {
    seq(|traps|, i requires 0 <= i < |traps| => traps[i].index)
  }

  // Where the trap for this index runs; past the end when there is none.
  function Slot(traps: seq<ActiveTrap>, index: int): (p: nat)
    ensures p <= |traps| && (p < |traps| ==> traps[p].index == index)
    ensures forall i :: 0 <= i < p ==> traps[i].index != index
  {
    if traps == [] then 0
    else
      var p := Slot(traps[..|traps| - 1], index);
      if p < |traps| - 1 || traps[p].index == index then p else |traps|
  }

  // Start a trap, or extend the running one in place; never shorten it.
  function ArmState(traps: seq<ActiveTrap>, index: int, seconds: real): seq<ActiveTrap> {
    var p := Slot(traps, index);
    if seconds <= 0.0 then traps
    else if p == |traps| then traps + [ActiveTrap(index, seconds)]
    else traps[p := ActiveTrap(index, if traps[p].remaining < seconds then seconds else traps[p].remaining)]
  }

  function Aged(traps: seq<ActiveTrap>, dt: real): seq<ActiveTrap> {
    seq(|traps|, i requires 0 <= i < |traps| => ActiveTrap(traps[i].index, traps[i].remaining - dt))
  }

  function Running(traps: seq<ActiveTrap>): seq<ActiveTrap> {
    if traps == [] then []
    else if traps[|traps| - 1].remaining > 0.0 then Running(traps[..|traps| - 1]) + [traps[|traps| - 1]]
    else Running(traps[..|traps| - 1])
  }

  function Expired(traps: seq<ActiveTrap>): seq<int> {
    if traps == [] then []
    else if traps[|traps| - 1].remaining > 0.0 then Expired(traps[..|traps| - 1])
    else Expired(traps[..|traps| - 1]) + [traps[|traps| - 1].index]
  }

  lemma ExpiredSnoc(traps: seq<ActiveTrap>, i: nat)
    requires i < |traps|
    ensures Expired(traps[..i + 1]) == Expired(traps[..i]) + (if traps[i].remaining > 0.0 then [] else [traps[i].index])
  {
    assert traps[..i + 1][..i] == traps[..i];
  }

  class TrapState {
    var traps: seq<ActiveTrap>

    constructor ()
      ensures traps == []
    {
      traps := [];
    }

    method Arm(index: int, seconds: real)
      modifies this
      ensures traps == ArmState(old(traps), index, seconds)
    {
      if seconds <= 0.0 {
        return;
      }
      var i := 0;
      while i < |traps|
        invariant 0 <= i <= |traps| && traps == old(traps)
        invariant forall j :: 0 <= j < i ==> traps[j].index != index
      {
        if traps[i].index == index {
          var longer := if traps[i].remaining < seconds then seconds else traps[i].remaining;
          traps := traps[i := ActiveTrap(index, longer)];
          return;
        }
        i := i + 1;
      }
      traps := traps + [ActiveTrap(index, seconds)];
    }

    // The indices that ran out, in arming order; the others keep their order.
    method Advance(dt: real) returns (expired: seq<int>)
      modifies this
      ensures dt <= 0.0 ==> traps == old(traps) && expired == []
      ensures dt > 0.0 ==> traps == Running(Aged(old(traps), dt)) && expired == Expired(Aged(old(traps), dt))
    {
      expired := [];
      if dt <= 0.0 {
        return;
      }
      ghost var aged := Aged(traps, dt);
      for i := 0 to |traps|
        invariant |traps| == |aged| == |old(traps)|
        invariant forall j :: 0 <= j < |traps| ==> traps[j] == if j < i then aged[j] else old(traps)[j]
        invariant expired == Expired(aged[..i])
      {
        ExpiredSnoc(aged, i);
        hide Expired;
        var left := traps[i].remaining - dt;
        traps := traps[i := ActiveTrap(traps[i].index, left)];
        if left <= 0.0 {
          expired := expired + [traps[i].index];
        }
      }
      assert traps == aged && aged[..|aged|] == aged;
      EraseExpired();
    }

    method EraseExpired()
      modifies this
      ensures traps == Running(old(traps))
    {
      var kept := [];
      for i := 0 to |traps|
        invariant traps == old(traps) && kept == Running(traps[..i])
      {
        assert traps[..i + 1][..i] == traps[..i];
        if traps[i].remaining > 0.0 {
          kept := kept + [traps[i]];
        }
      }
      assert traps[..|traps|] == traps;
      traps := kept;
    }

    method Clear() returns (were: seq<int>)
      modifies this
      ensures were == Indices(old(traps)) && traps == []
    {
      were := Indices(traps);
      traps := [];
    }
  }

  // ---- The driver ----

  // History: `on` is every index whose last successful write forced the bit on, `ceded` every one the
  // retry gave up because the player's save carries the modifier now.
  datatype Hooks = Hooks(active: seq<ActiveTrap>, pendingOff: seq<int>, on: set<int>, ceded: set<int>)

  // What the game answers during one call: is it available, in gameplay, ready; which modifiers the save
  // carries; and whether each kind of write goes through for an index.
  datatype Env = Env(
    available: bool,
    gameplay: bool,
    ready: bool,
    applied: int -> bool,
    write: int -> bool,
    retry: int -> bool,
    lift: int -> bool,
    reassert: int -> bool,
    dt: real)

  type Table = map<int, real>

  predicate TableOk(table: Table) { forall index :: index in table ==> table[index] > 0.0 }

  function Without(s: seq<int>, x: int): (r: seq<int>)
    ensures forall y :: y in r <==> y in s && y != x
  {
    if s == [] then []
    else if s[|s| - 1] == x then Without(s[..|s| - 1], x)
    else Without(s[..|s| - 1], x) + [s[|s| - 1]]
  }

  // The lifts of this batch the game refuses.
  function RefusedOf(s: seq<int>, lift: int -> bool): (r: seq<int>)
    ensures forall y :: y in r <==> y in s && !lift(y)
  {
    if s == [] then []
    else if lift(s[|s| - 1]) then RefusedOf(s[..|s| - 1], lift)
    else RefusedOf(s[..|s| - 1], lift) + [s[|s| - 1]]
  }

  // What one retry pass lifts, and what it leaves to the player.
  function LiftedOf(s: seq<int>, env: Env): set<int> { set x | x in s && !env.applied(x) && env.retry(x) }

  function PlayersOf(s: seq<int>, env: Env): set<int> { set x | x in s && env.applied(x) }

  // The lifts still refused on retry: neither the player's own by now nor gone through.
  function StillRefused(s: seq<int>, env: Env): (r: seq<int>)
    ensures forall y :: y in r <==> y in s && !env.applied(y) && !env.retry(y)
  {
    if s == [] then []
    else if env.applied(s[|s| - 1]) || env.retry(s[|s| - 1]) then StillRefused(s[..|s| - 1], env)
    else StillRefused(s[..|s| - 1], env) + [s[|s| - 1]]
  }

  predicate NoRepeats(s: seq<int>) {
    s == [] || (NoRepeats(s[..|s| - 1]) && s[|s| - 1] !in s[..|s| - 1])
  }

  lemma NoRepeatsSnoc(s: seq<int>, x: int)
    ensures NoRepeats(s + [x]) <==> NoRepeats(s) && x !in s
  {
    assert (s + [x])[..|s|] == s;
  }

  lemma {:induction false} NoRepeatsConcat(s: seq<int>, r: seq<int>)
    requires NoRepeats(s) && NoRepeats(r) && forall x :: x in r ==> x !in s
    ensures NoRepeats(s + r)
  {
    if r == [] {
      assert s + r == s;
    } else {
      var init := r[..|r| - 1];
      NoRepeatsConcat(s, init);
      assert s + r == (s + init) + [r[|r| - 1]];
      NoRepeatsSnoc(s + init, r[|r| - 1]);
    }
  }

  lemma {:induction false} WithoutNoRepeats(s: seq<int>, x: int)
    requires NoRepeats(s)
    ensures NoRepeats(Without(s, x))
  {
    if s != [] {
      WithoutNoRepeats(s[..|s| - 1], x);
      NoRepeatsSnoc(Without(s[..|s| - 1], x), s[|s| - 1]);
    }
  }

  lemma {:induction false} RefusedNoRepeats(s: seq<int>, lift: int -> bool)
    requires NoRepeats(s)
    ensures NoRepeats(RefusedOf(s, lift))
  {
    if s != [] {
      RefusedNoRepeats(s[..|s| - 1], lift);
      NoRepeatsSnoc(RefusedOf(s[..|s| - 1], lift), s[|s| - 1]);
    }
  }

  lemma {:induction false} StillRefusedNoRepeats(s: seq<int>, env: Env)
    requires NoRepeats(s)
    ensures NoRepeats(StillRefused(s, env))
  {
    if s != [] {
      StillRefusedNoRepeats(s[..|s| - 1], env);
      NoRepeatsSnoc(StillRefused(s[..|s| - 1], env), s[|s| - 1]);
    }
  }

  function ArmTrap(t: Hooks, table: Table, index: int, override: real, env: Env): (Hooks, TrapArm) {
    if index !in table || !env.available then (t, Unavailable)
    else if !env.gameplay || !env.ready then (t, NotReady)
    else if env.applied(index) then (t, Skipped)
    else if !env.write(index) then (t, NotReady)
    else
      var seconds := if override > 0.0 then override else table[index];
      (Hooks(ArmState(t.active, index, seconds), Without(t.pendingOff, index),
             t.on + {index}, t.ceded - {index}), Armed)
  }

  // Lift these bits; the refused ones join the retry list.
  function Lift(t: Hooks, indices: seq<int>, lift: int -> bool): Hooks {
    t.(pendingOff := t.pendingOff + RefusedOf(indices, lift), on := t.on - set x | x in indices && lift(x))
  }

  function Clear(t: Hooks, env: Env): Hooks {
    Lift(t.(active := []), Indices(t.active), env.lift)
  }

  function RetryPending(t: Hooks, env: Env): Hooks {
    if !env.ready then t
    else
      t.(pendingOff := StillRefused(t.pendingOff, env),
      on := t.on - LiftedOf(t.pendingOff, env),
      ceded := t.ceded + PlayersOf(t.pendingOff, env))
  }

  function Advance(t: Hooks, env: Env): Hooks {
    if t.active == [] || env.dt <= 0.0 then t
    else
      var aged := Aged(t.active, env.dt);
      var t' := Lift(t.(active := Running(aged)), Expired(aged), env.lift);
      t'.(on := t'.on + set index | index in Indices(t'.active) && env.reassert(index))
  }

  datatype Queued = Queued(index: int, override: real)

  function ArmAll(t: Hooks, table: Table, queue: seq<Queued>, n: nat, env: Env): Hooks
    requires n <= |queue|
  {
    if n == 0 then t
    else ArmTrap(ArmAll(t, table, queue, n - 1, env), table, queue[n - 1].index, queue[n - 1].override, env).0
  }

  function Tick(t: Hooks, table: Table, queue: seq<Queued>, env: Env): Hooks {
    var t' := RetryPending(ArmAll(t, table, queue, |queue|, env), env);
    if env.gameplay then Advance(t', env) else Clear(t', env)
  }

  // ---- What every run keeps ----

  ghost predicate Sound(t: Hooks) {
    && NoRepeats(Indices(t.active))
    && NoRepeats(t.pendingOff)
    && (forall x :: x in Indices(t.active) ==> x !in t.pendingOff && x !in t.ceded)
    && (forall x :: x in t.pendingOff ==> x !in t.ceded)
    && (forall x :: x in t.on <==> x in Indices(t.active) || x in t.pendingOff || x in t.ceded)
  }

  lemma ArmStateIndices(traps: seq<ActiveTrap>, index: int, seconds: real)
    requires seconds > 0.0
    ensures Indices(ArmState(traps, index, seconds)) ==
            if index in Indices(traps) then Indices(traps) else Indices(traps) + [index]
  {
    var p := Slot(traps, index);
    if p < |traps| {
      assert Indices(traps)[p] == index;
    }
  }

  lemma ArmKeeps(t: Hooks, table: Table, index: int, override: real, env: Env)
    requires Sound(t) && TableOk(table)
    ensures Sound(ArmTrap(t, table, index, override, env).0)
  {
    hide Indices, NoRepeats, Without, ArmState;
    if ArmTrap(t, table, index, override, env).1.Armed? {
      ArmStateIndices(t.active, index, if override > 0.0 then override else table[index]);
      NoRepeatsSnoc(Indices(t.active), index);
      WithoutNoRepeats(t.pendingOff, index);
    }
  }

  // Splitting a list by who ran out loses nobody and keeps both orders free of repeats.
  lemma {:induction false} SplitByTime(traps: seq<ActiveTrap>)
    requires NoRepeats(Indices(traps))
    ensures var kept, gone := Indices(Running(traps)), Expired(traps);
            && NoRepeats(kept) && NoRepeats(gone)
            && (forall x :: x in kept ==> x !in gone)
            && (forall x :: x in Indices(traps) <==> x in kept || x in gone)
  {
    if traps != [] {
      var init, last := traps[..|traps| - 1], traps[|traps| - 1];
      IndicesSnoc(init, last);
      assert traps == init + [last];
      NoRepeatsSnoc(Indices(init), last.index);
      SplitByTime(init);
      IndicesSnoc(Running(init), last);
      NoRepeatsSnoc(Indices(Running(init)), last.index);
      NoRepeatsSnoc(Expired(init), last.index);
      hide Indices, NoRepeats;
      if last.remaining > 0.0 {
        assert Running(traps) == Running(init) + [last] && Expired(traps) == Expired(init);
      } else {
        assert Running(traps) == Running(init) && Expired(traps) == Expired(init) + [last.index];
      }
    }
  }

  lemma IndicesSnoc(traps: seq<ActiveTrap>, last: ActiveTrap)
    ensures Indices(traps + [last]) == Indices(traps) + [last.index]
  {
  }

  lemma ClearKeeps(t: Hooks, env: Env)
    requires Sound(t)
    ensures Sound(Clear(t, env)) && Clear(t, env).active == []
  {
    var indices := Indices(t.active);
    RefusedNoRepeats(indices, env.lift);
    NoRepeatsConcat(t.pendingOff, RefusedOf(indices, env.lift));
  }

  lemma AdvanceKeeps(t: Hooks, env: Env)
    requires Sound(t)
    ensures Sound(Advance(t, env))
  {
    if t.active != [] && env.dt > 0.0 {
      var aged := Aged(t.active, env.dt);
      assert Indices(aged) == Indices(t.active);
      SplitByTime(aged);
      RefusedNoRepeats(Expired(aged), env.lift);
      NoRepeatsConcat(t.pendingOff, RefusedOf(Expired(aged), env.lift));
      hide Indices, NoRepeats, Running, Expired, Aged, RefusedOf;
    }
  }

  lemma RetryPendingKeeps(t: Hooks, env: Env)
    requires Sound(t)
    ensures Sound(RetryPending(t, env)) && RetryPending(t, env).active == t.active
  {
    StillRefusedNoRepeats(t.pendingOff, env);
  }

  lemma {:induction false} ArmAllKeeps(t: Hooks, table: Table, queue: seq<Queued>, n: nat, env: Env)
    requires Sound(t) && TableOk(table) && n <= |queue|
    ensures Sound(ArmAll(t, table, queue, n, env))
  {
    if n > 0 {
      ArmAllKeeps(t, table, queue, n - 1, env);
      ArmKeeps(ArmAll(t, table, queue, n - 1, env), table, queue[n - 1].index, queue[n - 1].override, env);
    }
  }

  lemma TickKeeps(t: Hooks, table: Table, queue: seq<Queued>, env: Env)
    requires Sound(t) && TableOk(table)
    ensures Sound(Tick(t, table, queue, env))
    ensures !env.gameplay ==> Tick(t, table, queue, env).active == []
  {
    var t1 := ArmAll(t, table, queue, |queue|, env);
    ArmAllKeeps(t, table, queue, |queue|, env);
    RetryPendingKeeps(t1, env);
    if env.gameplay {
      AdvanceKeeps(RetryPending(t1, env), env);
    } else {
      ClearKeeps(RetryPending(t1, env), env);
    }
  }

  datatype Input = ArmIn(index: int, override: real, env: Env)
                 | TickIn(queue: seq<Queued>, env: Env) | ClearIn(env: Env)

  function Step(t: Hooks, table: Table, input: Input): Hooks {
    match input
    case ArmIn(index, override, env) => ArmTrap(t, table, index, override, env).0
    case TickIn(queue, env) => Tick(t, table, queue, env)
    case ClearIn(env) => Clear(t, env)
  }

  const IDLE := Hooks([], [], {}, {})

  function Run(table: Table, inputs: seq<Input>): Hooks {
    if inputs == [] then IDLE else Step(Run(table, inputs[..|inputs| - 1]), table, inputs[|inputs| - 1])
  }

  // No modifier is stranded: however the writes fail, the bits left forced on are exactly those counting down,
  // waiting to be lifted, or the player's own by now; and no index is in two of the lists or twice in one.
  lemma {:induction false} NothingStranded(table: Table, inputs: seq<Input>)
    requires TableOk(table)
    ensures Sound(Run(table, inputs))
  {
    if inputs != [] {
      var t, input := Run(table, inputs[..|inputs| - 1]), inputs[|inputs| - 1];
      NothingStranded(table, inputs[..|inputs| - 1]);
      match input {
        case ArmIn(index, override, env) => ArmKeeps(t, table, index, override, env);
        case TickIn(queue, env) => TickKeeps(t, table, queue, env);
        case ClearIn(env) => ClearKeeps(t, env);
      }
    }
  }

  // And it comes off: from any reachable state, one tick outside gameplay whose writes go through leaves
  // no bit forced on but the player's own, whatever arms were queued.
  lemma LiftedOutsideGameplay(table: Table, inputs: seq<Input>, queue: seq<Queued>, env: Env)
    requires TableOk(table) && !env.gameplay && env.ready && forall x :: env.retry(x) && env.lift(x)
    ensures var t := Tick(Run(table, inputs), table, queue, env);
            t.active == [] && t.pendingOff == [] && t.on <= t.ceded
  {
    hide Sound, RetryPending, Clear, Run, Advance, ArmAll;
    var t := Run(table, inputs);
    NothingStranded(table, inputs);
    NoArmsOutsideGameplay(t, table, queue, |queue|, env);
    WillingRetry(t, env);
    RetryPendingKeeps(t, env);
    WillingClear(RetryPending(t, env), env);
  }

  lemma {:induction false} NoArmsOutsideGameplay(t: Hooks, table: Table, queue: seq<Queued>, n: nat, env: Env)
    requires n <= |queue| && !env.gameplay
    ensures ArmAll(t, table, queue, n, env) == t
  {
    if n > 0 {
      NoArmsOutsideGameplay(t, table, queue, n - 1, env);
    }
  }

  lemma {:induction false} NoneRefused(s: seq<int>, env: Env)
    ensures (forall x :: env.retry(x)) ==> StillRefused(s, env) == []
    ensures (forall x :: env.lift(x)) ==> RefusedOf(s, env.lift) == []
  {
    if s != [] {
      NoneRefused(s[..|s| - 1], env);
      var last := s[|s| - 1];
      assert (forall x :: env.retry(x)) ==> env.retry(last);
      assert (forall x :: env.lift(x)) ==> env.lift(last);
    }
  }

  lemma WillingRetry(t: Hooks, env: Env)
    requires env.ready && forall x :: env.retry(x)
    ensures RetryPending(t, env).pendingOff == []
  {
    NoneRefused(t.pendingOff, env);
  }

  lemma WillingClear(t: Hooks, env: Env)
    requires Sound(t) && t.pendingOff == [] && forall x :: env.lift(x)
    ensures var t' := Clear(t, env); t'.active == [] && t'.pendingOff == [] && t'.on <= t'.ceded
  {
    NoneRefused(Indices(t.active), env);
    forall x | x in Clear(t, env).on ensures x in t.ceded {
      assert env.lift(x);
    }
  }

  lemma LiftSnoc(t: Hooks, indices: seq<int>, n: nat, lift: int -> bool)
    requires n < |indices|
    ensures var t', x := Lift(t, indices[..n], lift), indices[n];
            Lift(t, indices[..n + 1], lift) ==
            if lift(x) then t'.(on := t'.on - {x}) else t'.(pendingOff := t'.pendingOff + [x])
  {
    assert indices[..n + 1] == indices[..n] + [indices[n]] && indices[..n + 1][..n] == indices[..n];
  }

  lemma RetryNothing(t: Hooks, env: Env)
    ensures RetryPending(t.(pendingOff := []), env) == t.(pendingOff := [])
  {
    assert env.ready ==> t.on - {} == t.on && t.ceded + {} == t.ceded;
  }

  lemma RetrySnoc(t: Hooks, batch: seq<int>, n: nat, env: Env)
    requires n < |batch| && env.ready
    ensures var t', x := RetryPending(t.(pendingOff := batch[..n]), env), batch[n];
            RetryPending(t.(pendingOff := batch[..n + 1]), env) ==
            if env.applied(x) then t'.(ceded := t'.ceded + {x})
            else if env.retry(x) then t'.(on := t'.on - {x})
            else t'.(pendingOff := t'.pendingOff + [x])
  {
    RetrySetsSnoc(batch[..n], batch[n], env);
    assert batch[..n + 1] == batch[..n] + [batch[n]];
    hide PlayersOf, LiftedOf, StillRefused;
  }

  lemma RetrySetsSnoc(done: seq<int>, x: int, env: Env)
    ensures PlayersOf(done + [x], env) == PlayersOf(done, env) + (if env.applied(x) then {x} else {})
    ensures LiftedOf(done + [x], env) == LiftedOf(done, env) + (if !env.applied(x) && env.retry(x) then {x} else {})
    ensures StillRefused(done + [x], env) ==
            StillRefused(done, env) + (if env.applied(x) || env.retry(x) then [] else [x])
  {
    assert (done + [x])[..|done|] == done;
  }

  // ---- The driver as an object ----

  class TrapHooks {
    const state: TrapState
    var pendingOff: seq<int>
    var pendingArm: seq<Queued>
    ghost var on: set<int>
    ghost var ceded: set<int>

    ghost function View(): Hooks
      reads this, state
    {
      Hooks(state.traps, pendingOff, on, ceded)
    }

    constructor ()
      ensures View() == IDLE && pendingArm == [] && fresh(state)
    {
      state := new TrapState();
      pendingOff, pendingArm, on, ceded := [], [], {}, {};
    }

    method Arm(table: Table, index: int, override: real, env: Env) returns (r: TrapArm)
      modifies this`pendingOff, this`on, this`ceded, state
      ensures (View(), r) == ArmTrap(old(View()), table, index, override, env)
    {
      if index !in table {
        return Unavailable;
      }
      if !env.available {
        return Unavailable;
      }
      if !env.gameplay {
        return NotReady;
      }
      if !env.ready {
        return NotReady;
      }
      if env.applied(index) {
        return Skipped;
      }
      if !env.write(index) {
        return NotReady;
      }
      on := on + {index};
      ceded := ceded - {index};
      pendingOff := Without(pendingOff, index); // a fresh arm wins over an earlier lift
      state.Arm(index, if override > 0.0 then override else table[index]);
      return Armed;
    }

    method QueueArm(index: int, override: real)
      modifies this`pendingArm
      ensures pendingArm == old(pendingArm) + [Queued(index, override)]
    {
      pendingArm := pendingArm + [Queued(index, override)];
    }

    method TickOnce(table: Table, env: Env)
      modifies this, state
      ensures View() == Tick(old(View()), table, old(pendingArm), env) && pendingArm == []
    {
      var batch := pendingArm;
      pendingArm := [];
      for n := 0 to |batch|
        invariant View() == ArmAll(old(View()), table, batch, n, env) && pendingArm == []
      {
        var _ := Arm(table, batch[n].index, batch[n].override, env);
      }
      RetryPendingOff(env);
      if !env.gameplay {
        if state.traps != [] {
          ClearAll(env);
        }
        return;
      }
      AdvanceFrame(env);
    }

    method AdvanceFrame(env: Env)
      modifies this`pendingOff, this`on, state
      ensures View() == Advance(old(View()), env)
    {
      if state.traps == [] {
        return;
      }
      var expired := state.Advance(env.dt);
      LiftEach(expired, env.lift);
      if env.dt <= 0.0 {
        return;
      }
      on := on + set index | index in Indices(state.traps) && env.reassert(index);
    }

    // Lift each bit now, or put it on the retry list.
    method LiftEach(indices: seq<int>, lift: int -> bool)
      modifies this`pendingOff, this`on
      ensures View() == Lift(old(View()), indices, lift)
    {
      for n := 0 to |indices|
        invariant View() == Lift(old(View()), indices[..n], lift)
      {
        LiftSnoc(old(View()), indices, n, lift);
        if lift(indices[n]) {
          on := on - {indices[n]};
        } else {
          pendingOff := pendingOff + [indices[n]];
        }
      }
      assert indices[..|indices|] == indices;
    }

    method ClearAll(env: Env)
      modifies this`pendingOff, this`on, state
      ensures View() == Clear(old(View()), env)
    {
      var were := state.Clear();
      LiftEach(were, env.lift);
    }

    method RetryPendingOff(env: Env)
      modifies this`pendingOff, this`on, this`ceded
      ensures View() == RetryPending(old(View()), env)
    {
      if pendingOff == [] || !env.ready {
        return;
      }
      hide RetryPending;
      var batch := pendingOff;
      pendingOff := [];
      RetryNothing(old(View()), env);
      assert batch[..0] == [];
      for n := 0 to |batch|
        invariant View() == RetryPending(old(View()).(pendingOff := batch[..n]), env)
      {
        RetrySnoc(old(View()), batch, n, env);
        if env.applied(batch[n]) {
          ceded := ceded + {batch[n]};
        } else if env.retry(batch[n]) {
          on := on - {batch[n]};
        } else {
          pendingOff := pendingOff + [batch[n]];
        }
      }
      assert batch[..|batch|] == batch;
    }
  }
}
