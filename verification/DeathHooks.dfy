/**
  The deathlink driver around the gate: what one poll and one inbound bounce do, kill spacing, bounded
  waiting of a latched bounce, and exactly when an outbound broadcast can be an echo.
 */
module DeathHookRuns {
  import opened DeathGate

  const PENDING_TICKS: nat := 1200
  const CONFIRM_TICKS: nat := 720

  // What the live player reads as: the guard byte, health, an area-change state, banked sparks.
  datatype Body = Body(dying: bool, alive: bool, areaChange: bool, spark: int)

  datatype MaybeBody = NoPlayer | Player(body: Body)

  datatype Screen = DeathScreen | Unreadable | Elsewhere

  // The room clock is compared for equality only; `clockApi` false is a build without it.
  datatype Env = Env(paused: bool, clockApi: bool, clock: int, player: MaybeBody,
                     areaMissing: bool, dieApi: bool, screen: Screen)

  datatype Hooks = Hooks(gate: Gate, clock: int, stalled: bool, pendingKill: nat, pendingCast: nat, spark: int)

  const START := Hooks(FRESH, 0, false, 0, 0, 0)

  function GameplayAdvanced(h: Hooks, env: Env): (Hooks, bool) {
    if env.paused then (h.(stalled := false), false)
    else if !env.clockApi then (h.(stalled := false), true)
    else (h.(clock := env.clock, stalled := env.clock == h.clock), env.clock != h.clock)
  }

  datatype Verdict = Retry | Dropped | Died

  predicate InAreaChange(env: Env) { env.player.Player? && env.player.body.areaChange }

  function TryApply(h: Hooks, env: Env): (Hooks, Verdict) {
    if env.player.NoPlayer? || !Stable(h.gate) || h.stalled || InAreaChange(env) then (h, Retry)
    else if env.areaMissing || !env.dieApi then (h, Dropped)
    else (h.(gate := Applied(h.gate)), Died)
  }

  function DrivePendingDeath(h: Hooks, env: Env, advanced: bool): (Hooks, Verdict) {
    if h.pendingKill == 0 then (h, Retry)
    else if h.gate.latched then (h.(pendingKill := 0), Retry)
    else
      var (h', verdict) := TryApply(h, env);
      if !verdict.Retry? then (h'.(pendingKill := 0), verdict)
      else if advanced && !InAreaChange(env) then (h'.(pendingKill := h.pendingKill - 1), Retry)
      else (h', Retry)
  }

  // The flag: the death is sent out now.
  function DrivePendingCast(h: Hooks, env: Env): (Hooks, bool) {
    if h.pendingCast == 0 then (h, false)
    else if !env.screen.Elsewhere? then (h.(pendingCast := 0), true)
    else (h.(pendingCast := h.pendingCast - 1), false)
  }

  // The death reading of a poll; no player reads as neither dying nor alive.
  function Reading(env: Env, advanced: bool): Op {
    if env.player.NoPlayer? then Poll(false, false, advanced)
    else Poll(env.player.body.dying, env.player.body.alive, advanced)
  }

  function Detect(h: Hooks, env: Env, advanced: bool): Hooks {
    var op := Reading(env, advanced);
    var (gate, edge) := Observed(h.gate, op.dying, op.alive, advanced);
    var spark := if op.alive then env.player.body.spark else h.spark;
    h.(gate := gate, spark := spark, pendingCast := if edge && spark <= 0 then CONFIRM_TICKS else h.pendingCast)
  }

  datatype Result = Result(hooks: Hooks, died: bool, sent: bool)

  function PollOnce(h: Hooks, env: Env): Result {
    var (h1, advanced) := GameplayAdvanced(h, env);
    var (h2, verdict) := DrivePendingDeath(h1, env, advanced);
    var (h3, sent) := DrivePendingCast(h2, env);
    Result(Detect(h3, env, advanced), verdict.Died?, sent)
  }

  function Inbound(h: Hooks, env: Env): Result {
    var h1 := h.(gate := Received(h.gate));
    if h1.gate.latched then Result(h1, false, false)
    else
      var (h2, verdict) := TryApply(h1, env);
      if !verdict.Retry? then Result(h2.(pendingKill := 0), verdict.Died?, false)
      else Result(h2.(pendingKill := if h.pendingKill > 0 then h.pendingKill else PENDING_TICKS), false, false)
  }

  datatype Input = PollIn(env: Env) | InboundIn(env: Env) | ResetIn

  function Step(h: Hooks, input: Input): Result {
    match input
    case PollIn(env) => PollOnce(h, env)
    case InboundIn(env) => Inbound(h, env)
    case ResetIn => Result(h.(pendingKill := 0, pendingCast := 0), false, false)
  }

  function Run(h: Hooks, inputs: seq<Input>): Hooks {
    if inputs == [] then h else Step(Run(h, inputs[..|inputs| - 1]), inputs[|inputs| - 1]).hooks
  }

  // Does the last input of the run send a death out?
  predicate Sends(h: Hooks, inputs: seq<Input>) {
    inputs != [] && Step(Run(h, inputs[..|inputs| - 1]), inputs[|inputs| - 1]).sent
  }

  // ---- What a run does to the gate ----

  function OpsOf(h: Hooks, input: Input): seq<Op> {
    var kill := if Step(h, input).died then [Kill] else [];
    match input
    case PollIn(env) => kill + [Reading(env, GameplayAdvanced(h, env).1)]
    case InboundIn(_) => [Bounce] + kill
    case ResetIn => []
  }

  function Trace(h: Hooks, inputs: seq<Input>): seq<Op> {
    if inputs == [] then []
    else
      var init, input := inputs[..|inputs| - 1], inputs[|inputs| - 1];
      Trace(h, init) + OpsOf(Run(h, init), input)
  }

  ghost predicate KillsFromStable(g: Gate, ops: seq<Op>) {
    forall k :: 0 <= k < |ops| && ops[k] == Kill ==> Stable(After(g, ops[..k]))
  }

  lemma {:induction false} AfterConcat(g: Gate, a: seq<Op>, b: seq<Op>)
    ensures After(g, a + b) == After(After(g, a), b)
  {
    if b == [] {
      assert a + b == a;
    } else {
      var init := b[..|b| - 1];
      AfterConcat(g, a, init);
      assert (a + b)[..|a + b| - 1] == a + init;
    }
  }

  lemma StepIsOps(h: Hooks, input: Input)
    ensures Step(h, input).hooks.gate == After(h.gate, OpsOf(h, input))
    ensures KillsFromStable(h.gate, OpsOf(h, input))
  {
    match input {
      case PollIn(env) =>
        PollGate(h, env);
        hide PollOnce, Next;
        AfterShort(h.gate, OpsOf(h, input));
      case InboundIn(env) =>
        InboundGate(h, env);
        hide Inbound, Next;
        AfterShort(h.gate, OpsOf(h, input));
      case ResetIn =>
    }
  }

  lemma AfterShort(g: Gate, ops: seq<Op>)
    requires 0 < |ops| <= 2
    ensures After(g, ops[..0]) == g && After(g, ops[..1]) == Next(g, ops[0])
    ensures |ops| == 1 ==> After(g, ops) == Next(g, ops[0])
    ensures |ops| == 2 ==> After(g, ops) == Next(Next(g, ops[0]), ops[1])
  {
    assert ops[..0] == [] && ops[..1][..0] == [] && ops[..|ops|] == ops;
  }

  // The gate's share of one step: a request only from a stable gate, before the poll's own reading.
  lemma PollGate(h: Hooks, env: Env)
    ensures var r, op := PollOnce(h, env), Reading(env, GameplayAdvanced(h, env).1);
            && (r.died ==> Stable(h.gate))
            && r.hooks.gate == Next(if r.died then Next(h.gate, Kill) else h.gate, op)
  {
    var (h1, advanced) := GameplayAdvanced(h, env);
    var (h2, verdict) := DrivePendingDeath(h1, env, advanced);
    assert h2.gate == if verdict.Died? then Applied(h.gate) else h.gate;
    assert verdict.Died? ==> Stable(h.gate);
  }

  lemma InboundGate(h: Hooks, env: Env)
    ensures var r, g := Inbound(h, env), Next(h.gate, Bounce);
            && (r.died ==> Stable(g))
            && r.hooks.gate == (if r.died then Next(g, Kill) else g)
  {
  }

  lemma KillsConcat(g: Gate, a: seq<Op>, b: seq<Op>)
    requires KillsFromStable(g, a) && KillsFromStable(After(g, a), b)
    ensures KillsFromStable(g, a + b)
  {
    forall k | 0 <= k < |a + b| && (a + b)[k] == Kill ensures Stable(After(g, (a + b)[..k])) {
      if k < |a| {
        assert (a + b)[..k] == a[..k];
      } else {
        assert (a + b)[..k] == a + b[..k - |a|];
        AfterConcat(g, a, b[..k - |a|]);
      }
    }
  }

  lemma {:induction false} RunIsTrace(h: Hooks, inputs: seq<Input>)
    ensures Run(h, inputs).gate == After(h.gate, Trace(h, inputs))
    ensures KillsFromStable(h.gate, Trace(h, inputs))
  {
    hide Step, OpsOf;
    if inputs != [] {
      var init, input := inputs[..|inputs| - 1], inputs[|inputs| - 1];
      RunIsTrace(h, init);
      StepIsOps(Run(h, init), input);
      AfterConcat(h.gate, Trace(h, init), OpsOf(Run(h, init), input));
      KillsConcat(h.gate, Trace(h, init), OpsOf(Run(h, init), input));
    }
  }

  // Any two deaths the driver requests, on any run, are at least 30 settled polls apart, and at least 270
  // advanced ones when no dying poll lies between them.
  lemma KillsAreSpaced(h: Hooks, inputs: seq<Input>, i: nat, j: nat)
    requires i < j < |Trace(h, inputs)| && Trace(h, inputs)[i] == Kill && Trace(h, inputs)[j] == Kill
    ensures var between := Trace(h, inputs)[i + 1..j];
            && Count(Settled, between) >= STABLE_TICKS
            && ((forall k :: 0 <= k < |between| ==> !Dying(between[k])) ==>
                  Count(Advanced, between) >= GRACE_TICKS + STABLE_TICKS)
  {
    RunIsTrace(h, inputs);
    AfterKill(h.gate, Trace(h, inputs), i, j);
    StableAfterKillTakes(After(h.gate, Trace(h, inputs)[..i]), Trace(h, inputs)[i + 1..j]);
  }

  lemma AfterKill(g: Gate, trace: seq<Op>, i: nat, j: nat)
    requires i < j <= |trace| && trace[i] == Kill
    ensures After(g, trace[..j]) == After(Applied(After(g, trace[..i])), trace[i + 1..j])
  {
    assert trace[..j] == trace[..i + 1] + trace[i + 1..j];
    AfterConcat(g, trace[..i + 1], trace[i + 1..j]);
    assert trace[..i + 1][..i] == trace[..i];
  }

  // ---- Bounded waiting ----

  // A poll that spends one tick of a latched bounce's window.
  predicate Spends(h: Hooks, input: Input) {
    input.PollIn? && GameplayAdvanced(h, input.env).1 && !InAreaChange(input.env)
  }

  function Spent(h: Hooks, inputs: seq<Input>): nat {
    if inputs == [] then 0
    else
      var init, input := inputs[..|inputs| - 1], inputs[|inputs| - 1];
      Spent(h, init) + (if Spends(Run(h, init), input) then 1 else 0)
  }

  // While a bounce stays latched its window shrinks by exactly the ticks spent: no stream of further bounces
  // extends it. So no bounce is still waiting after 1200 of them.
  lemma {:induction false} LatchedBounceRunsOut(h: Hooks, inputs: seq<Input>)
    requires 0 < h.pendingKill <= PENDING_TICKS
    requires forall k :: 0 <= k <= |inputs| ==> Run(h, inputs[..k]).pendingKill > 0
    ensures Run(h, inputs).pendingKill + Spent(h, inputs) == h.pendingKill
    ensures Spent(h, inputs) < PENDING_TICKS
  {
    assert inputs[..|inputs|] == inputs;
    if inputs != [] {
      var init := inputs[..|inputs| - 1];
      forall k | 0 <= k <= |init| ensures Run(h, init[..k]).pendingKill > 0 {
        assert init[..k] == inputs[..k];
      }
      LatchedBounceRunsOut(h, init);
      StepSpends(Run(h, init), inputs[|inputs| - 1]);
    }
  }

  lemma StepSpends(h: Hooks, input: Input)
    requires h.pendingKill > 0 && Step(h, input).hooks.pendingKill > 0
    ensures Step(h, input).hooks.pendingKill + (if Spends(h, input) then 1 else 0) == h.pendingKill
  {
  }

  lemma {:induction false} WindowNeverExceeds(inputs: seq<Input>)
    ensures Run(START, inputs).pendingKill <= PENDING_TICKS
  {
    if inputs != [] {
      WindowNeverExceeds(inputs[..|inputs| - 1]);
    }
  }

  // ---- When a broadcast is an echo ----

  ghost predicate Unsettled(h: Hooks, inputs: seq<Input>) {
    forall k :: 0 <= k <= |inputs| ==> !Stable(Run(h, inputs[..k]).gate)
  }

  lemma {:induction false} NoCastFromAKill(h: Hooks, inputs: seq<Input>)
    requires h.gate.suppress && h.pendingCast == 0 && Unsettled(h, inputs)
    ensures Run(h, inputs).gate.suppress && Run(h, inputs).pendingCast == 0 && !Sends(h, inputs)
  {
    if inputs != [] {
      var init, input := inputs[..|inputs| - 1], inputs[|inputs| - 1];
      assert Unsettled(h, init) by {
        forall k | 0 <= k <= |init| ensures !Stable(Run(h, init[..k]).gate) {
          assert init[..k] == inputs[..k];
        }
      }
      NoCastFromAKill(h, init);
      assert inputs[..|inputs|] == inputs && init == inputs[..|init|];
      NoCastFromAStep(Run(h, init), input);
    }
  }

  lemma NoCastFromAStep(h: Hooks, input: Input)
    requires h.gate.suppress && h.pendingCast == 0 && !Stable(h.gate)
    ensures var r := Step(h, input);
            !r.sent && r.hooks.pendingCast == 0 && (r.hooks.gate.suppress || Stable(r.hooks.gate))
  {
  }

  // Something is sent out as an echo of this step's requested death: in the very step, after the request, or
  // on some run from there on before the respawn settles.
  ghost predicate EchoAfter(r: Result) {
    r.sent || exists inputs :: Sends(r.hooks, inputs) && Unsettled(r.hooks, inputs[..|inputs| - 1])
  }

  // A local death is still waiting for its screen, and the step does not use up the last of the wait.
  predicate WaitOpen(h: Hooks, input: Input) {
    h.pendingCast > 1 || (h.pendingCast == 1 && (input.InboundIn? || (input.PollIn? && !input.env.screen.Elsewhere?)))
  }

  // The gate never lets a death taken from a bounce broadcast, but a local death may still be waiting for
  // its death screen. So a requested death can be echoed exactly when such a wait was open before the step
  // that requests it; a poll that requests one drives the wait right after it.
  lemma EchoPossibleIff(h: Hooks, input: Input)
    requires Step(h, input).died
    ensures EchoAfter(Step(h, input)) <==> WaitOpen(h, input)
  {
    var r := Step(h, input);
    DiedUnsettles(h, input);
    WaitAfterDeath(h, input);
    hide Step;
    EchoFromIff(r.hooks);
  }

  lemma WaitAfterDeath(h: Hooks, input: Input)
    requires Step(h, input).died
    ensures var r := Step(h, input); r.sent || r.hooks.pendingCast > 0 <==> WaitOpen(h, input)
  {
  }

  // From an unsettled, suppressed gate something is sent before it settles exactly when a wait is open.
  lemma EchoFromIff(h: Hooks)
    requires h.gate.suppress && !Stable(h.gate)
    ensures (exists inputs :: Sends(h, inputs) && Unsettled(h, inputs[..|inputs| - 1])) <==> h.pendingCast > 0
  {
    if h.pendingCast > 0 {
      var inputs := [PollIn(Env(false, false, 0, NoPlayer, false, true, DeathScreen))];
      assert inputs[..0] == [];
      assert Run(h, inputs[..0]) == h;
      assert Sends(h, inputs) && Unsettled(h, inputs[..|inputs| - 1]);
    } else {
      forall inputs | inputs != [] && Unsettled(h, inputs[..|inputs| - 1]) ensures !Sends(h, inputs) {
        var init := inputs[..|inputs| - 1];
        NoCastFromAKill(h, init);
        assert init[..|init|] == init;
        NoCastFromAStep(Run(h, init), inputs[|inputs| - 1]);
      }
    }
  }

  lemma DiedUnsettles(h: Hooks, input: Input)
    requires Step(h, input).died
    ensures Step(h, input).hooks.gate.suppress && !Stable(Step(h, input).hooks.gate)
  {
  }

  // And such a wait can be open: a spark revival leaves it running past the settled respawn.
  function Alive30(n: nat): seq<Input> {
    seq(n, i => PollIn(Env(false, false, 0, Player(Body(false, true, false, 0)), false, true, Elsewhere)))
  }

  lemma {:induction false} RevivedKeepsWaiting(h: Hooks, n: nat)
    requires n <= STABLE_TICKS &&
             h.gate == Gate(0, 0, true, false) && h.pendingCast == CONFIRM_TICKS && h.pendingKill == 0
    ensures var h' := Run(h, Alive30(n));
            h'.gate == Gate(n, 0, n < STABLE_TICKS, false) && h'.pendingCast == CONFIRM_TICKS - n && h'.pendingKill == 0
            && (n > 0 ==> !h'.stalled)
  {
    if n > 0 {
      assert Alive30(n)[..n - 1] == Alive30(n - 1);
      RevivedKeepsWaiting(h, n - 1);
    }
  }

  lemma OneInput(h: Hooks, input: Input)
    ensures Run(h, [input]) == Step(h, input).hooks
  {
    var inputs := [input];
    assert inputs[..|inputs| - 1] == [];
    assert Run(h, inputs) == Step(Run(h, []), input).hooks;
  }

  lemma EchoIsReachable()
    ensures exists inputs, input :: Step(Run(START, inputs), input).died && EchoAfter(Step(Run(START, inputs), input))
  {
    var death := PollIn(Env(false, false, 0, Player(Body(true, false, false, 0)), false, true, Elsewhere));
    var h := Run(START, [death]);
    OneInput(START, death);
    RevivedKeepsWaiting(h, STABLE_TICKS);
    RunConcat(START, [death], Alive30(STABLE_TICKS));
    var input := InboundIn(Env(false, false, 0, Player(Body(false, true, false, 0)), false, true, Elsewhere));
    var before := Run(START, [death] + Alive30(STABLE_TICKS));
    assert Step(before, input).died && WaitOpen(before, input);
    EchoPossibleIff(before, input);
  }

  lemma {:induction false} RunConcat(h: Hooks, a: seq<Input>, b: seq<Input>)
    ensures Run(h, a + b) == Run(Run(h, a), b)
  {
    if b == [] {
      assert a + b == a;
    } else {
      RunConcat(h, a, b[..|b| - 1]);
      assert (a + b)[..|a + b| - 1] == a + b[..|b| - 1];
    }
  }

  // ---- The driver itself ----

  class DeathHooks {
    const gate: DeathBroadcastGate
    var lastAliveSpark: int
    var lastRoomTime: int
    var roomClockStalled: bool
    var pendingKillTicks: nat
    var pendingBroadcastTicks: nat

    ghost function View(): Hooks
      reads this, gate
    {
      Hooks(gate.View(), lastRoomTime, roomClockStalled, pendingKillTicks, pendingBroadcastTicks, lastAliveSpark)
    }

    constructor ()
      ensures View() == START && fresh(gate)
    {
      gate := new DeathBroadcastGate();
      lastAliveSpark, lastRoomTime, roomClockStalled, pendingKillTicks, pendingBroadcastTicks := 0, 0, false, 0, 0;
    }

    method Advance(env: Env) returns (advanced: bool)
      modifies this`lastRoomTime, this`roomClockStalled
      ensures (View(), advanced) == GameplayAdvanced(old(View()), env)
    {
      if env.paused {
        roomClockStalled := false;
        return false;
      }
      if !env.clockApi {
        roomClockStalled := false;
        return true;
      }
      var moved := env.clock != lastRoomTime;
      lastRoomTime, roomClockStalled := env.clock, !moved;
      return moved;
    }

    method TryApplyInboundDeath(env: Env) returns (verdict: Verdict)
      modifies gate
      ensures (View(), verdict) == TryApply(old(View()), env)
    {
      if env.player.NoPlayer? {
        return Retry;
      }
      if !(gate.aliveStreak >= STABLE_TICKS) || roomClockStalled || env.player.body.areaChange {
        return Retry;
      }
      if env.areaMissing {
        return Dropped;
      }
      if !env.dieApi {
        return Dropped;
      }
      gate.NoteInboundDeathApplied();
      return Died;
    }

    method DrivePending(env: Env, advanced: bool) returns (verdict: Verdict)
      modifies this`pendingKillTicks, gate
      ensures (View(), verdict) == DrivePendingDeath(old(View()), env, advanced)
    {
      if pendingKillTicks == 0 {
        return Retry;
      }
      if gate.latched {
        pendingKillTicks := 0;
        return Retry;
      }
      verdict := TryApplyInboundDeath(env);
      if !verdict.Retry? {
        pendingKillTicks := 0;
        return;
      }
      if advanced && !(env.player.Player? && env.player.body.areaChange) {
        pendingKillTicks := pendingKillTicks - 1;
      }
    }

    method DriveBroadcast(env: Env) returns (sent: bool)
      modifies this`pendingBroadcastTicks
      ensures (View(), sent) == DrivePendingCast(old(View()), env)
    {
      if pendingBroadcastTicks == 0 {
        return false;
      }
      if env.screen.DeathScreen? || env.screen.Unreadable? {
        pendingBroadcastTicks := 0;
        return true;
      }
      pendingBroadcastTicks := pendingBroadcastTicks - 1;
      return false;
    }

    method Poll(env: Env) returns (died: bool, sent: bool)
      modifies this, gate
      ensures Result(View(), died, sent) == PollOnce(old(View()), env)
    {
      var advanced := Advance(env);
      var verdict := DrivePending(env, advanced);
      died := verdict.Died?;
      sent := DriveBroadcast(env);
      DetectLocalDeath(env, advanced);
    }

    method DetectLocalDeath(env: Env, advanced: bool)
      modifies this`lastAliveSpark, this`pendingBroadcastTicks, gate
      ensures View() == Detect(old(View()), env, advanced)
    {
      if env.player.NoPlayer? {
        var _ := gate.Observe(false, false, advanced);
        return;
      }
      var body := env.player.body;
      if body.alive {
        lastAliveSpark := body.spark;
      }
      var freshLocalDeath := gate.Observe(body.dying, body.alive, advanced);
      if freshLocalDeath {
        if lastAliveSpark > 0 {
          return;
        }
        pendingBroadcastTicks := CONFIRM_TICKS;
      }
    }

    method Kill(env: Env) returns (died: bool)
      modifies this`pendingKillTicks, gate
      ensures Result(View(), died, false) == Inbound(old(View()), env)
    {
      gate.NoteInboundDeathReceived();
      if gate.latched {
        return false;
      }
      var verdict := TryApplyInboundDeath(env);
      if !verdict.Retry? {
        pendingKillTicks := 0;
        return verdict.Died?;
      }
      if pendingKillTicks > 0 {
        return false;
      }
      pendingKillTicks := PENDING_TICKS;
      return false;
    }

    method Reset()
      modifies this`pendingKillTicks, this`pendingBroadcastTicks
      ensures View() == Step(old(View()), ResetIn).hooks
    {
      pendingKillTicks, pendingBroadcastTicks := 0, 0;
    }
  }
}
