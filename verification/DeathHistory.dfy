/**
  The deathlink driver in terms of its inputs alone: what a run has read off the clock and the player, when a
  bounce waits and for how long, when it kills, and when a local death is sent out. The flags and counters of
  the driver are a digest of this history.
 */
module DeathHistory {
  import opened DeathGate
  import opened DeathHookRuns

  // ---- What the polls have read ----

  // Only an unpaused poll of a build that has it reads the room clock.
  predicate ReadsClock(input: Input) { input.PollIn? && !input.env.paused && input.env.clockApi }

  function LastClock(inputs: seq<Input>): int {
    if inputs == [] then 0
    else if ReadsClock(inputs[|inputs| - 1]) then inputs[|inputs| - 1].env.clock
    else LastClock(inputs[..|inputs| - 1])
  }

  // Did gameplay advance at this poll?
  predicate Moved(pre: seq<Input>, env: Env) {
    !env.paused && (env.clockApi ==> env.clock != LastClock(pre))
  }

  // The last poll read the clock and found it standing.
  predicate Frozen(inputs: seq<Input>) {
    inputs != [] &&
    var init, input := inputs[..|inputs| - 1], inputs[|inputs| - 1];
    if input.PollIn? then ReadsClock(input) && input.env.clock == LastClock(init) else Frozen(init)
  }

  // The sparks held when the player was last read alive.
  function LastSpark(inputs: seq<Input>): int {
    if inputs == [] then 0
    else
      var input := inputs[|inputs| - 1];
      if input.PollIn? && input.env.player.Player? && input.env.player.body.alive then input.env.player.body.spark
      else LastSpark(inputs[..|inputs| - 1])
  }

  lemma {:induction false} ReadingsAreHistory(inputs: seq<Input>)
    ensures Run(START, inputs).clock == LastClock(inputs)
    ensures Run(START, inputs).stalled <==> Frozen(inputs)
    ensures Run(START, inputs).spark == LastSpark(inputs)
  {
    if inputs != [] {
      var init, input := inputs[..|inputs| - 1], inputs[|inputs| - 1];
      ReadingsAreHistory(init);
      ReadingsStep(Run(START, init), input);
      hide Step;
    }
  }

  lemma ReadingsStep(h: Hooks, input: Input)
    ensures var h' := Step(h, input).hooks;
            && h'.clock == (if ReadsClock(input) then input.env.clock else h.clock)
            && h'.stalled == (if input.PollIn? then ReadsClock(input) && input.env.clock == h.clock else h.stalled)
            && h'.spark == if input.PollIn? && input.env.player.Player? && input.env.player.body.alive
                           then input.env.player.body.spark else h.spark
  {
  }

  // ---- The history the gate sees, and what it answers ----

  ghost function History(inputs: seq<Input>): seq<Op>
    decreases |inputs|, 0
  {
    if inputs == [] then []
    else
      var init, input := inputs[..|inputs| - 1], inputs[|inputs| - 1];
      var kill := if DiesAt(init, input) then [Kill] else [];
      match input
      case PollIn(env) =>
        var there := env.player.Player?;
        History(init) + kill + [Poll(there && env.player.body.dying, there && env.player.body.alive, Moved(init, env))]
      case InboundIn(_) => History(init) + [Bounce] + kill
      case ResetIn => History(init)
  }

  // Some death reading has not been followed by a settled respawn.
  ghost predicate DeathOn(inputs: seq<Input>)
    decreases |inputs|, 1
  {
    Unanswered(History(inputs))
  }

  ghost predicate Unanswered(ops: seq<Op>) {
    exists j :: 0 <= j < |ops| && Dying(ops[j]) && !SettledSince(ops, j)
  }

  predicate Away(env: Env) { env.player.Player? && env.player.body.areaChange }

  // A player who settled thirty polls ago, no standing clock, no area change.
  ghost predicate Ready(pre: seq<Input>, input: Input)
    requires !input.ResetIn?
    decreases |pre|, 1
  {
    input.env.player.Player? && !Away(input.env) && !Frozen(pre + [input]) && StreakAtLeast(History(pre), 30)
  }

  // A bounce that has to wait.
  ghost predicate Defers(pre: seq<Input>, input: Input)
    decreases |pre|, 2
  {
    input.InboundIn? && !DeathOn(pre) && !Ready(pre, input)
  }

  // What ends the waiting: a death to serve it, a player to take it, or a reset.
  ghost predicate Ends(pre: seq<Input>, input: Input)
    decreases |pre|, 2
  {
    match input
    case PollIn(_) => DeathOn(pre) || Ready(pre, input)
    case InboundIn(_) => !DeathOn(pre) && Ready(pre, input)
    case ResetIn => true
  }

  // Gameplay time outside area changes is what a waiting bounce runs out of.
  predicate Costs(pre: seq<Input>, input: Input) {
    input.PollIn? && Moved(pre, input.env) && !Away(input.env)
  }

  function CostSince(inputs: seq<Input>, i: nat): nat {
    if |inputs| <= i then 0
    else
      var init, input := inputs[..|inputs| - 1], inputs[|inputs| - 1];
      CostSince(init, i) + (if Costs(init, input) then 1 else 0)
  }

  // The bounce at i was put off with none waiting, nothing ended its wait, and n ticks are left of 1200.
  ghost predicate HeldSince(inputs: seq<Input>, i: nat, n: nat)
    requires i < |inputs|
    decreases |inputs|, 3
  {
    && Defers(inputs[..i], inputs[i]) && !Waits(inputs[..i], 1)
    && (forall j :: i < j < |inputs| ==> !Ends(inputs[..j], inputs[j]))
    && CostSince(inputs, i + 1) + n <= 1200
  }

  ghost predicate Waits(inputs: seq<Input>, n: nat)
    decreases |inputs|, 4
  {
    exists i :: 0 <= i < |inputs| && HeldSince(inputs, i, n)
  }

  // A bounce kills at once or, when it had to wait, at a later poll.
  ghost predicate DiesAt(pre: seq<Input>, input: Input)
    decreases |pre|, 5
  {
    && !input.ResetIn? && !DeathOn(pre) && Ready(pre, input) && (input.PollIn? ==> Waits(pre, 1))
    && !input.env.areaMissing && input.env.dieApi
  }

  // ---- A waiting bounce, input by input ----

  lemma HeldSnoc(pre: seq<Input>, input: Input, i: nat, n: nat)
    requires i < |pre|
    ensures HeldSince(pre + [input], i, n) <==>
            !Ends(pre, input) && HeldSince(pre, i, n + if Costs(pre, input) then 1 else 0)
  {
    var more := pre + [input];
    assert more[..|pre|] == pre && more[|pre|] == input && more[..i] == pre[..i] && more[i] == pre[i];
    forall j | i < j < |pre| ensures Ends(more[..j], more[j]) == Ends(pre[..j], pre[j]) {
      assert more[..j] == pre[..j];
    }
    hide Ends, Costs, Defers, Waits;
  }

  lemma WaitsSnoc(pre: seq<Input>, input: Input, n: nat)
    ensures Waits(pre + [input], n) <==>
            || (Defers(pre, input) && !Waits(pre, 1) && n <= 1200)
            || (!Ends(pre, input) && Waits(pre, n + if Costs(pre, input) then 1 else 0))
  {
    var more, m := pre + [input], n + if Costs(pre, input) then 1 else 0;
    forall i: nat | i < |pre| ensures HeldSince(more, i, n) <==> !Ends(pre, input) && HeldSince(pre, i, m) {
      HeldSnoc(pre, input, i, n);
    }
    LastHeld(pre, input, n);
    if Waits(more, n) {
      var i := WaitsFrom(more, n);
      hide *;
      if i < |pre| {
        HeldWaits(pre, i, m);
      }
    }
    if !Ends(pre, input) && Waits(pre, m) {
      var i := WaitsFrom(pre, m);
      hide *;
      HeldWaits(more, i, n);
    }
    if HeldSince(more, |pre|, n) {
      HeldWaits(more, |pre|, n);
    }
  }

  lemma WaitsFrom(inputs: seq<Input>, n: nat) returns (i: nat)
    requires Waits(inputs, n)
    ensures i < |inputs| && HeldSince(inputs, i, n)
  {
    i :| 0 <= i < |inputs| && HeldSince(inputs, i, n);
  }

  lemma HeldWaits(inputs: seq<Input>, i: nat, n: nat)
    requires i < |inputs| && HeldSince(inputs, i, n)
    ensures Waits(inputs, n)
  {
  }

  lemma LastHeld(pre: seq<Input>, input: Input, n: nat)
    ensures HeldSince(pre + [input], |pre|, n) <==> Defers(pre, input) && !Waits(pre, 1) && n <= 1200
  {
    var more := pre + [input];
    assert more[..|pre|] == pre;
  }

  // ---- The driver is a digest of its history ----

  // One step on the driver's fields, told by the four things that decide it.
  lemma StepByFacts(h: Hooks, input: Input, on: bool, ready: bool, moved: bool, frozen: bool)
    requires on == h.gate.latched
    requires input.PollIn? ==> moved == (!input.env.paused && (input.env.clockApi ==> input.env.clock != h.clock))
    requires frozen == if input.PollIn? then ReadsClock(input) && input.env.clock == h.clock else h.stalled
    requires !input.ResetIn? ==> ready == (input.env.player.Player? && !Away(input.env) && !frozen && Stable(h.gate))
    ensures input.PollIn? ==> GameplayAdvanced(h, input.env).1 == moved
    ensures var r := Step(h, input);
            && r.died == (!input.ResetIn? && !on && ready && (input.PollIn? ==> h.pendingKill > 0)
                          && !input.env.areaMissing && input.env.dieApi)
            && r.hooks.pendingKill ==
               match input {
                 case PollIn(env) =>
                   if on || ready || h.pendingKill == 0 then 0
                   else if moved && !Away(env) then h.pendingKill - 1 else h.pendingKill
                 case InboundIn(_) =>
                   if on then h.pendingKill else if ready then 0 else if h.pendingKill > 0 then h.pendingKill else 1200
                 case ResetIn => 0
               }
  {
  }

  lemma OpsByFacts(h: Hooks, input: Input, moved: bool)
    requires input.PollIn? ==> GameplayAdvanced(h, input.env).1 == moved
    ensures var kill := if Step(h, input).died then [Kill] else [];
            OpsOf(h, input) ==
            match input {
              case PollIn(env) =>
                kill + [Poll(env.player.Player? && env.player.body.dying, env.player.Player? && env.player.body.alive,
                             moved)]
              case InboundIn(_) => [Bounce] + kill
              case ResetIn => []
            }
  {
    hide Step;
  }

  // What the flags and readings of the driver are worth before a step.
  lemma FactsAreHistory(pre: seq<Input>, input: Input)
    requires Trace(START, pre) == History(pre)
    ensures Run(START, pre).gate.latched == DeathOn(pre)
    ensures !input.ResetIn? ==>
              (Ready(pre, input) <==> input.env.player.Player? && !Away(input.env) && !Frozen(pre + [input])
                                      && Stable(Run(START, pre).gate))
    ensures Frozen(pre + [input]) == if input.PollIn? then ReadsClock(input) && input.env.clock == Run(START, pre).clock
                                     else Run(START, pre).stalled
    ensures Run(START, pre).clock == LastClock(pre)
  {
    assert (pre + [input])[..|pre|] == pre;
    ReadingsAreHistory(pre);
    GateIsHistory(pre);
    hide Run, History, Trace;
  }

  lemma GateIsHistory(pre: seq<Input>)
    requires Trace(START, pre) == History(pre)
    ensures Run(START, pre).gate.latched == Unanswered(History(pre))
    ensures Stable(Run(START, pre).gate) <==> StreakAtLeast(History(pre), 30)
  {
    RunIsTrace(START, pre);
    FlagsAreHistory(History(pre));
    StreakIsHistory(History(pre), STABLE_TICKS);
    hide SettledSince, StreakAtLeast, History, Trace, After;
  }

  // On every run: the operations the gate saw, and the window left to a waiting bounce, are those of the history.
  lemma {:induction false} DriverIsHistory(inputs: seq<Input>)
    ensures Trace(START, inputs) == History(inputs)
    ensures forall n: nat :: 1 <= n ==> (Run(START, inputs).pendingKill >= n <==> Waits(inputs, n))
  {
    if inputs != [] {
      var pre, input := inputs[..|inputs| - 1], inputs[|inputs| - 1];
      assert inputs == pre + [input];
      DriverIsHistory(pre);
      HistoryStep(pre, input);
      WaitStep(pre, input);
    }
  }

  lemma HistoryStep(pre: seq<Input>, input: Input)
    requires Trace(START, pre) == History(pre)
    requires Run(START, pre).pendingKill >= 1 <==> Waits(pre, 1)
    ensures Step(Run(START, pre), input).died == DiesAt(pre, input)
    ensures Trace(START, pre + [input]) == History(pre + [input])
  {
    var more, h := pre + [input], Run(START, pre);
    FactsAreHistory(pre, input);
    var moved := input.PollIn? && Moved(pre, input.env);
    StepByFacts(h, input, DeathOn(pre), !input.ResetIn? && Ready(pre, input), moved, Frozen(more));
    OpsByFacts(h, input, moved);
    assert Step(h, input).died == DiesAt(pre, input);
    HistorySnoc(pre, input);
    hide *;
  }

  lemma HistorySnoc(pre: seq<Input>, input: Input)
    ensures Trace(START, pre + [input]) == Trace(START, pre) + OpsOf(Run(START, pre), input)
    ensures var kill := if DiesAt(pre, input) then [Kill] else [];
            History(pre + [input]) ==
            History(pre) +
            match input {
              case PollIn(env) =>
                kill + [Poll(env.player.Player? && env.player.body.dying, env.player.Player? && env.player.body.alive,
                             Moved(pre, env))]
              case InboundIn(_) => [Bounce] + kill
              case ResetIn => []
            }
  {
    assert (pre + [input])[..|pre|] == pre;
    hide OpsOf, DiesAt, Moved, Run;
  }

  lemma WaitStep(pre: seq<Input>, input: Input)
    requires Trace(START, pre) == History(pre)
    requires forall n: nat :: 1 <= n ==> (Run(START, pre).pendingKill >= n <==> Waits(pre, n))
    ensures forall n: nat :: 1 <= n ==> (Run(START, pre + [input]).pendingKill >= n <==> Waits(pre + [input], n))
  {
    var more, h := pre + [input], Run(START, pre);
    assert more[..|pre|] == pre;
    FactsAreHistory(pre, input);
    var moved := input.PollIn? && Moved(pre, input.env);
    StepByFacts(h, input, DeathOn(pre), !input.ResetIn? && Ready(pre, input), moved, Frozen(more));
    hide Step, Waits, Ready, DeathOn, Trace, History, Frozen, LastClock;
    forall n: nat | 1 <= n ensures Run(START, more).pendingKill >= n <==> Waits(more, n) {
      WaitsSnoc(pre, input, n);
      assert h.pendingKill >= n <==> Waits(pre, n);
      assert h.pendingKill >= n + 1 <==> Waits(pre, n + 1);
      assert h.pendingKill >= 1 <==> Waits(pre, 1);
    }
  }

  // A bounce is applied exactly when the history says so.
  lemma DiesIff(inputs: seq<Input>, input: Input)
    ensures Step(Run(START, inputs), input).died <==> DiesAt(inputs, input)
  {
    DriverIsHistory(inputs);
    HistoryStep(inputs, input);
  }

  // ---- When a local death is sent out ----

  // The operations end in a death reading, and the respawn has settled since every earlier death or bounce.
  ghost predicate EndsInFreshDeath(ops: seq<Op>) {
    ops != [] &&
    var n := |ops| - 1;
    Dying(ops[n]) && forall j :: 0 <= j < n && (Dying(ops[j]) || !ops[j].Poll?) ==> SettledSince(ops[..n], j)
  }

  // The last poll read a fresh death, and no spark was held when the player was last read alive.
  ghost predicate Opens(inputs: seq<Input>) {
    inputs != [] && inputs[|inputs| - 1].PollIn? && EndsInFreshDeath(History(inputs)) && LastSpark(inputs) <= 0
  }

  // A reset ends the wait for the death screen, and so does a poll that reads the screen or nothing at all.
  predicate GoesOnWaiting(input: Input) {
    input.InboundIn? || (input.PollIn? && input.env.screen.Elsewhere?)
  }

  function PollsSince(inputs: seq<Input>, i: nat): nat {
    if |inputs| <= i then 0
    else PollsSince(inputs[..|inputs| - 1], i) + (if inputs[|inputs| - 1].PollIn? then 1 else 0)
  }

  ghost predicate OpensAt(inputs: seq<Input>, i: nat)
    requires i < |inputs|
  {
    Opens(inputs[..i + 1])
  }

  // The death of input i is still to be confirmed, with n of its 720 polls left.
  ghost predicate OpenSince(inputs: seq<Input>, i: nat, n: nat)
    requires i < |inputs|
  {
    && OpensAt(inputs, i) && (forall j :: i < j < |inputs| ==> GoesOnWaiting(inputs[j]))
    && PollsSince(inputs, i + 1) + n <= 720
  }

  ghost predicate Awaits(inputs: seq<Input>, n: nat) {
    exists i :: 0 <= i < |inputs| && OpenSince(inputs, i, n)
  }

  lemma OpenSnoc(pre: seq<Input>, input: Input, i: nat, n: nat)
    requires i < |pre|
    ensures OpenSince(pre + [input], i, n) <==>
            GoesOnWaiting(input) && OpenSince(pre, i, n + if input.PollIn? then 1 else 0)
  {
    var more := pre + [input];
    assert more[..|pre|] == pre && more[|pre|] == input && more[..i + 1] == pre[..i + 1];
    assert forall j :: 0 <= j < |pre| ==> more[j] == pre[j];
    hide Opens, GoesOnWaiting;
  }

  lemma AwaitsSnoc(pre: seq<Input>, input: Input, n: nat)
    ensures Awaits(pre + [input], n) <==>
            || (Opens(pre + [input]) && n <= 720)
            || (GoesOnWaiting(input) && Awaits(pre, n + if input.PollIn? then 1 else 0))
  {
    hide Opens, GoesOnWaiting, Awaits;
    var more, m := pre + [input], n + if input.PollIn? then 1 else 0;
    assert more[..|pre| + 1] == more;
    assert OpenSince(more, |pre|, n) <==> Opens(more) && n <= 720;
    forall i: nat | i < |pre| ensures OpenSince(more, i, n) <==> GoesOnWaiting(input) && OpenSince(pre, i, m) {
      OpenSnoc(pre, input, i, n);
    }
    if Awaits(more, n) {
      var i := AwaitsFrom(more, n);
      hide *;
      if i < |pre| {
        OpenAwaits(pre, i, m);
      }
    }
    if GoesOnWaiting(input) && Awaits(pre, m) {
      var i := AwaitsFrom(pre, m);
      hide *;
      OpenAwaits(more, i, n);
    }
    if OpenSince(more, |pre|, n) {
      OpenAwaits(more, |pre|, n);
    }
  }

  lemma AwaitsFrom(inputs: seq<Input>, n: nat) returns (i: nat)
    requires Awaits(inputs, n)
    ensures i < |inputs| && OpenSince(inputs, i, n)
  {
    i :| 0 <= i < |inputs| && OpenSince(inputs, i, n);
  }

  lemma OpenAwaits(inputs: seq<Input>, i: nat, n: nat)
    requires i < |inputs| && OpenSince(inputs, i, n)
    ensures Awaits(inputs, n)
  {
  }

  lemma CastByFacts(h: Hooks, input: Input, opens: bool)
    requires opens <==> input.PollIn? && Step(h, input).hooks.spark <= 0 && Edge(h, input)
    ensures var r := Step(h, input);
            && (r.sent <==> input.PollIn? && !input.env.screen.Elsewhere? && h.pendingCast > 0)
            && r.hooks.pendingCast ==
               if opens then 720
               else if !GoesOnWaiting(input) || h.pendingCast == 0 then 0
               else if input.PollIn? then h.pendingCast - 1 else h.pendingCast
  {
    if input.PollIn? {
      PollCast(h, input.env);
      hide PollOnce, Observed, Reading, Next;
    }
  }

  // The local death's share of one poll.
  lemma PollCast(h: Hooks, env: Env)
    ensures var r, op := PollOnce(h, env), Reading(env, GameplayAdvanced(h, env).1);
            var gate := if r.died then Next(h.gate, Kill) else h.gate;
            && (r.sent <==> !env.screen.Elsewhere? && h.pendingCast > 0)
            && r.hooks.pendingCast ==
               if Observed(gate, op.dying, op.alive, op.advanced).1 && r.hooks.spark <= 0 then 720
               else if !env.screen.Elsewhere? || h.pendingCast == 0 then 0
               else h.pendingCast - 1
  {
    var (h1, advanced) := GameplayAdvanced(h, env);
    var (h2, verdict) := DrivePendingDeath(h1, env, advanced);
    assert h1.gate == h.gate && h1.pendingCast == h.pendingCast;
    assert h2.gate == (if verdict.Died? then Applied(h.gate) else h.gate) && h2.pendingCast == h.pendingCast;
    assert Reading(env, advanced).advanced == advanced;
    hide GameplayAdvanced, DrivePendingDeath, Observed, Reading;
  }

  // Does the poll read a fresh death at the gate?
  predicate Edge(h: Hooks, input: Input) {
    input.PollIn? &&
    var op := Reading(input.env, GameplayAdvanced(h, input.env).1);
    var gate := if Step(h, input).died then Next(h.gate, Kill) else h.gate;
    Observed(gate, op.dying, op.alive, op.advanced).1
  }

  lemma EdgeIsFreshDeath(pre: seq<Input>, input: Input)
    requires input.PollIn?
    ensures Edge(Run(START, pre), input) <==> EndsInFreshDeath(History(pre + [input]))
  {
    var more, h := pre + [input], Run(START, pre);
    assert more[..|pre|] == pre;
    DriverIsHistory(more);
    RunIsTrace(START, pre);
    var kill := if Step(h, input).died then [Kill] else [];
    var op := Reading(input.env, GameplayAdvanced(h, input.env).1);
    var before := Trace(START, pre) + kill;
    assert Trace(START, more) == before + [op];
    hide Step, Observed, Reading, GameplayAdvanced, Waits, Run, Trace;
    BroadcastByHistory(before, op);
    AfterMaybeKill(Trace(START, pre), Step(h, input).died);
  }

  lemma BroadcastByHistory(ops: seq<Op>, op: Op)
    requires op.Poll?
    ensures Observed(After(FRESH, ops), op.dying, op.alive, op.advanced).1 <==> EndsInFreshDeath(ops + [op])
  {
    var more := ops + [op];
    assert more[..|ops|] == ops && forall j :: 0 <= j < |ops| ==> more[j] == ops[j];
    BroadcastIff(ops, op);
    hide SettledSince, Observed;
  }

  lemma AfterMaybeKill(ops: seq<Op>, killed: bool)
    ensures After(FRESH, ops + if killed then [Kill] else []) ==
            if killed then Next(After(FRESH, ops), Kill) else After(FRESH, ops)
  {
    assert (ops + [Kill])[..|ops|] == ops && ops + [] == ops;
  }

  // On every run the wait of a local death is given by the history.
  lemma {:induction false} CastIsHistory(inputs: seq<Input>)
    ensures forall n: nat :: 1 <= n ==> (Run(START, inputs).pendingCast >= n <==> Awaits(inputs, n))
  {
    if inputs != [] {
      var pre, input := inputs[..|inputs| - 1], inputs[|inputs| - 1];
      assert inputs == pre + [input];
      CastIsHistory(pre);
      CastStep(pre, input);
    }
  }

  lemma CastStep(pre: seq<Input>, input: Input)
    requires forall n: nat :: 1 <= n ==> (Run(START, pre).pendingCast >= n <==> Awaits(pre, n))
    ensures forall n: nat :: 1 <= n ==> (Run(START, pre + [input]).pendingCast >= n <==> Awaits(pre + [input], n))
  {
    var more, h := pre + [input], Run(START, pre);
    assert more[..|pre|] == pre;
    ReadingsAreHistory(more);
    if input.PollIn? {
      EdgeIsFreshDeath(pre, input);
    }
    CastByFacts(h, input, Opens(more));
    hide Step, Awaits, Opens, Edge, History;
    forall n: nat | 1 <= n ensures Run(START, more).pendingCast >= n <==> Awaits(more, n) {
      AwaitsSnoc(pre, input, n);
      assert h.pendingCast >= n <==> Awaits(pre, n);
      assert h.pendingCast >= n + 1 <==> Awaits(pre, n + 1);
    }
  }

  // A poll sends a death out exactly when one is still to be confirmed and the poll reads the death screen or
  // no gamestate at all; nothing else ever sends.
  lemma SendsIff(inputs: seq<Input>, input: Input)
    ensures Step(Run(START, inputs), input).sent <==>
            input.PollIn? && !input.env.screen.Elsewhere? && Awaits(inputs, 1)
  {
    CastIsHistory(inputs);
    CastByFacts(Run(START, inputs), input,
                input.PollIn? && Step(Run(START, inputs), input).hooks.spark <= 0 && Edge(Run(START, inputs), input));
    hide Step, Awaits;
  }

  // After 720 polls elsewhere the last such death is given up: whatever comes next, it is not sent.
  lemma GivenUp(inputs: seq<Input>, i: nat, input: Input)
    requires i < |inputs| && PollsSince(inputs, i + 1) >= 720
    requires forall j :: i < j < |inputs| ==> !OpensAt(inputs, j)
    ensures !Step(Run(START, inputs), input).sent
  {
    SendsIff(inputs, input);
    hide Step, OpensAt;
    if Awaits(inputs, 1) {
      var j :| 0 <= j < |inputs| && OpenSince(inputs, j, 1);
      PollsSinceEarlier(inputs, j + 1, i + 1);
    }
  }

  lemma {:induction false} PollsSinceEarlier(inputs: seq<Input>, i: nat, j: nat)
    requires i <= j
    ensures PollsSince(inputs, i) >= PollsSince(inputs, j)
  {
    if |inputs| > j {
      PollsSinceEarlier(inputs[..|inputs| - 1], i, j);
    }
  }
}
