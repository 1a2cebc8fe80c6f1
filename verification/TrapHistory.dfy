/**
  Modifier traps in terms of what happened: arms the game took, gameplay frames and clears. How long a
  countdown lasts, when its bit comes off, and what becomes of a lift the game refused.
 */
module TrapHistory {
  import opened Traps

  datatype Event = Started(index: int, seconds: real) | Frame(dt: real) | Cleared

  // The game takes an arm: it knows the modifier, is in gameplay and ready, does not have it from the player's
  // own save, and the write goes through.
  predicate Takes(table: Table, index: int, env: Env) {
    index in table && env.available && env.gameplay && env.ready && !env.applied(index) && env.write(index)
  }

  function Seconds(table: Table, index: int, override: real): real
    requires index in table
  {
    if override > 0.0 then override else table[index]
  }

  function ArmEvents(table: Table, index: int, override: real, env: Env): seq<Event> {
    if Takes(table, index, env) then [Started(index, Seconds(table, index, override))] else []
  }

  function QueueEvents(table: Table, queue: seq<Queued>, env: Env): seq<Event> {
    if queue == [] then []
    else
      var last := queue[|queue| - 1];
      QueueEvents(table, queue[..|queue| - 1], env) + ArmEvents(table, last.index, last.override, env)
  }

  function EventsOf(table: Table, input: Input): seq<Event> {
    match input
    case ArmIn(index, override, env) => ArmEvents(table, index, override, env)
    case TickIn(queue, env) => QueueEvents(table, queue, env) + (if env.gameplay then [Frame(env.dt)] else [Cleared])
    case ClearIn(_) => [Cleared]
  }

  function History(table: Table, inputs: seq<Input>): seq<Event> {
    if inputs == [] then []
    else History(table, inputs[..|inputs| - 1]) + EventsOf(table, inputs[|inputs| - 1])
  }

  // Frame time from event i on; a frame that goes backwards counts for nothing.
  function FrameTime(events: seq<Event>, i: nat): real {
    if |events| <= i then 0.0
    else
      var e := events[|events| - 1];
      FrameTime(events[..|events| - 1], i) + (if e.Frame? && e.dt > 0.0 then e.dt else 0.0)
  }

  // Event i started this index for longer than the frame time since and t more, and nothing cleared it.
  ghost predicate LastsBy(events: seq<Event>, i: nat, index: int, t: real)
    requires i < |events|
  {
    && events[i].Started? && events[i].index == index
    && (forall j :: i < j < |events| ==> events[j] != Cleared)
    && events[i].seconds - FrameTime(events, i + 1) > t
  }

  ghost predicate Lasts(events: seq<Event>, index: int, t: real) {
    exists i :: 0 <= i < |events| && LastsBy(events, i, index, t)
  }

  // More than t seconds remain on the countdown of this index.
  ghost predicate Above(traps: seq<ActiveTrap>, index: int, t: real) {
    exists k :: 0 <= k < |traps| && traps[k].index == index && traps[k].remaining > t
  }

  // ---- The countdowns follow the events ----

  function Evolve(traps: seq<ActiveTrap>, e: Event): seq<ActiveTrap> {
    match e
    case Started(index, seconds) => ArmState(traps, index, seconds)
    case Frame(dt) => if dt <= 0.0 then traps else Running(Aged(traps, dt))
    case Cleared => []
  }

  function EvolveAll(traps: seq<ActiveTrap>, events: seq<Event>): seq<ActiveTrap> {
    if events == [] then traps else Evolve(EvolveAll(traps, events[..|events| - 1]), events[|events| - 1])
  }

  lemma {:induction false} EvolveConcat(traps: seq<ActiveTrap>, a: seq<Event>, b: seq<Event>)
    ensures EvolveAll(traps, a + b) == EvolveAll(EvolveAll(traps, a), b)
  {
    if b == [] {
      assert a + b == a;
    } else {
      EvolveConcat(traps, a, b[..|b| - 1]);
      assert (a + b)[..|a + b| - 1] == a + b[..|b| - 1];
    }
  }

  lemma EvolveOne(traps: seq<ActiveTrap>, e: Event)
    ensures EvolveAll(traps, [e]) == Evolve(traps, e)
  {
    assert [e][..0] == [];
  }

  lemma ArmEvolves(t: Hooks, table: Table, index: int, override: real, env: Env)
    ensures ArmTrap(t, table, index, override, env).0.active ==
            EvolveAll(t.active, ArmEvents(table, index, override, env))
  {
    if Takes(table, index, env) {
      EvolveOne(t.active, Started(index, Seconds(table, index, override)));
    }
  }

  lemma {:induction false} QueueEvolves(t: Hooks, table: Table, queue: seq<Queued>, n: nat, env: Env)
    requires n <= |queue|
    ensures ArmAll(t, table, queue, n, env).active == EvolveAll(t.active, QueueEvents(table, queue[..n], env))
  {
    if n > 0 {
      QueueEvolves(t, table, queue, n - 1, env);
      var last, init := queue[n - 1], queue[..n - 1];
      assert queue[..n][..n - 1] == init;
      ArmEvolves(ArmAll(t, table, queue, n - 1, env), table, last.index, last.override, env);
      EvolveConcat(t.active, QueueEvents(table, init, env), ArmEvents(table, last.index, last.override, env));
    }
  }

  lemma StepEvolves(t: Hooks, table: Table, input: Input)
    ensures Step(t, table, input).active == EvolveAll(t.active, EventsOf(table, input))
  {
    match input {
      case ArmIn(index, override, env) => ArmEvolves(t, table, index, override, env);
      case ClearIn(_) => EvolveOne(t.active, Cleared);
      case TickIn(queue, env) =>
        assert queue[..|queue|] == queue;
        QueueEvolves(t, table, queue, |queue|, env);
        var t' := ArmAll(t, table, queue, |queue|, env);
        var end := if env.gameplay then Frame(env.dt) else Cleared;
        EvolveConcat(t.active, QueueEvents(table, queue, env), [end]);
        EvolveOne(t'.active, end);
        FrameEvolves(t', env);
    }
  }

  lemma FrameEvolves(t: Hooks, env: Env)
    ensures var t' := RetryPending(t, env);
            (if env.gameplay then Advance(t', env) else Clear(t', env)).active ==
            Evolve(t.active, if env.gameplay then Frame(env.dt) else Cleared)
  {
  }

  lemma {:induction false} RunEvolves(table: Table, inputs: seq<Input>)
    ensures Run(table, inputs).active == EvolveAll([], History(table, inputs))
  {
    if inputs != [] {
      var init, input := inputs[..|inputs| - 1], inputs[|inputs| - 1];
      RunEvolves(table, init);
      StepEvolves(Run(table, init), table, input);
      EvolveConcat([], History(table, init), EventsOf(table, input));
    }
  }

  // ---- What remains on a countdown ----

  lemma AboveArm(traps: seq<ActiveTrap>, index: int, seconds: real, x: int, t: real)
    requires t >= 0.0
    ensures Above(ArmState(traps, index, seconds), x, t) <==> Above(traps, x, t) || (x == index && seconds > t)
  {
    var after, p := ArmState(traps, index, seconds), Slot(traps, index);
    if Above(traps, x, t) {
      var k :| 0 <= k < |traps| && traps[k].index == x && traps[k].remaining > t;
      assert after[k].index == x && after[k].remaining > t;
    }
    if x == index && seconds > t {
      assert after[p].index == x && after[p].remaining > t;
    }
  }

  lemma {:induction false} AboveRunning(traps: seq<ActiveTrap>, x: int, t: real)
    requires t >= 0.0
    ensures Above(Running(traps), x, t) <==> Above(traps, x, t)
  {
    if traps != [] {
      var init, last := traps[..|traps| - 1], traps[|traps| - 1];
      AboveRunning(init, x, t);
      AboveSnoc(init, last, x, t);
      AboveSnoc(Running(init), last, x, t);
      assert init + [last] == traps;
    }
  }

  lemma AboveSnoc(traps: seq<ActiveTrap>, last: ActiveTrap, x: int, t: real)
    ensures Above(traps + [last], x, t) <==> Above(traps, x, t) || (last.index == x && last.remaining > t)
  {
    var more := traps + [last];
    if Above(traps, x, t) {
      var k :| 0 <= k < |traps| && traps[k].index == x && traps[k].remaining > t;
      assert more[k].index == x;
    }
    if last.index == x && last.remaining > t {
      assert more[|traps|].index == x;
    }
  }

  lemma AboveAged(traps: seq<ActiveTrap>, dt: real, x: int, t: real)
    ensures Above(Aged(traps, dt), x, t) <==> Above(traps, x, t + dt)
  {
    var aged := Aged(traps, dt);
    if Above(traps, x, t + dt) {
      var k :| 0 <= k < |traps| && traps[k].index == x && traps[k].remaining > t + dt;
      assert aged[k].index == x && aged[k].remaining > t;
    }
    if Above(aged, x, t) {
      var k :| 0 <= k < |aged| && aged[k].index == x && aged[k].remaining > t;
      assert traps[k].index == x && traps[k].remaining > t + dt;
    }
  }

  function Passed(e: Event): real { if e.Frame? && e.dt > 0.0 then e.dt else 0.0 }

  lemma AboveEvolve(traps: seq<ActiveTrap>, e: Event, x: int, t: real)
    requires t >= 0.0
    ensures Above(Evolve(traps, e), x, t) <==>
            (e.Started? && e.index == x && e.seconds > t) || (e != Cleared && Above(traps, x, t + Passed(e)))
  {
    match e {
      case Started(index, seconds) => AboveArm(traps, index, seconds, x, t);
      case Frame(dt) =>
        if dt > 0.0 {
          AboveRunning(Aged(traps, dt), x, t);
          AboveAged(traps, dt, x, t);
        }
      case Cleared =>
    }
  }

  lemma LastsBySnoc(events: seq<Event>, e: Event, i: nat, x: int, t: real)
    requires i < |events|
    ensures LastsBy(events + [e], i, x, t) <==> e != Cleared && LastsBy(events, i, x, t + Passed(e))
  {
    var more := events + [e];
    assert more[..|events|] == events && more[|events|] == e;
    assert forall j :: 0 <= j < |events| ==> more[j] == events[j];
  }

  lemma LastsSnoc(events: seq<Event>, e: Event, x: int, t: real)
    ensures Lasts(events + [e], x, t) <==>
            (e.Started? && e.index == x && e.seconds > t) || (e != Cleared && Lasts(events, x, t + Passed(e)))
  {
    var more := events + [e];
    assert more[|events|] == e;
    assert LastsBy(more, |events|, x, t) <==> e.Started? && e.index == x && e.seconds > t;
    forall i: nat | i < |events|
      ensures LastsBy(more, i, x, t) <==> e != Cleared && LastsBy(events, i, x, t + Passed(e))
    {
      LastsBySnoc(events, e, i, x, t);
    }
    hide LastsBy, Passed;
    if Lasts(more, x, t) {
      var i :| 0 <= i < |more| && LastsBy(more, i, x, t);
      assert i < |events| ==> LastsBy(events, i, x, t + Passed(e));
    }
    if e != Cleared && Lasts(events, x, t + Passed(e)) {
      var i :| 0 <= i < |events| && LastsBy(events, i, x, t + Passed(e));
      assert LastsBy(more, i, x, t);
    }
  }

  lemma {:induction false} EventsCountDown(events: seq<Event>, x: int, t: real)
    requires t >= 0.0
    ensures Above(EvolveAll([], events), x, t) <==> Lasts(events, x, t)
  {
    if events != [] {
      var init, e := events[..|events| - 1], events[|events| - 1];
      assert events == init + [e];
      EventsCountDown(init, x, t + Passed(e));
      AboveEvolve(EvolveAll([], init), e, x, t);
      LastsSnoc(init, e, x, t);
    }
  }

  // On every run more than t seconds remain on a countdown exactly when some arm the game took, not cleared
  // since, was for more than t seconds beyond the gameplay time since.
  lemma CountdownIff(table: Table, inputs: seq<Input>, x: int, t: real)
    requires t >= 0.0
    ensures Above(Run(table, inputs).active, x, t) <==> Lasts(History(table, inputs), x, t)
  {
    RunEvolves(table, inputs);
    EventsCountDown(History(table, inputs), x, t);
  }

  lemma RunningAreAbove(events: seq<Event>, x: int)
    ensures x in Indices(EvolveAll([], events)) <==> Above(EvolveAll([], events), x, 0.0)
  {
    var traps := EvolveAll([], events);
    AllPositive(events);
    if Above(traps, x, 0.0) {
      var k :| 0 <= k < |traps| && traps[k].index == x && traps[k].remaining > 0.0;
      assert Indices(traps)[k] == x;
    }
    if x in Indices(traps) {
      var k :| 0 <= k < |traps| && Indices(traps)[k] == x;
      assert traps[k].index == x && traps[k].remaining > 0.0;
    }
  }

  lemma {:induction false} AllPositive(events: seq<Event>)
    ensures forall a :: a in EvolveAll([], events) ==> a.remaining > 0.0
  {
    if events != [] {
      AllPositive(events[..|events| - 1]);
      EvolvePositive(EvolveAll([], events[..|events| - 1]), events[|events| - 1]);
    }
  }

  lemma EvolvePositive(traps: seq<ActiveTrap>, e: Event)
    requires forall a :: a in traps ==> a.remaining > 0.0
    ensures forall a :: a in Evolve(traps, e) ==> a.remaining > 0.0
  {
    if e.Frame? {
      AllRunning(Aged(traps, e.dt));
    }
  }

  lemma {:induction false} AllRunning(traps: seq<ActiveTrap>)
    ensures forall a :: a in Running(traps) ==> a.remaining > 0.0
  {
    if traps != [] {
      AllRunning(traps[..|traps| - 1]);
    }
  }

  // An index is active exactly while such an arm has time left: off at the first frame whose gameplay time
  // reaches the seconds armed, and not before.
  lemma ActiveIff(table: Table, inputs: seq<Input>, x: int)
    ensures x in Indices(Run(table, inputs).active) <==> Lasts(History(table, inputs), x, 0.0)
  {
    RunEvolves(table, inputs);
    RunningAreAbove(History(table, inputs), x);
    CountdownIff(table, inputs, x, 0.0);
  }

  // ---- The bits ----

  // What an arm is answered, by what the game says.
  lemma AnswerIff(t: Hooks, table: Table, index: int, override: real, env: Env)
    ensures var (t', answer) := ArmTrap(t, table, index, override, env);
            && (answer.Armed? <==> Takes(table, index, env))
            && (answer.Unavailable? <==> index !in table || !env.available)
            && (answer.Skipped? <==> index in table && env.available && env.gameplay && env.ready && env.applied(index))
            && (if answer.Armed? then index in t'.on && index !in t'.pendingOff && index !in t'.ceded else t' == t)
  {
  }

  // The half of a tick that ends countdowns.
  function EndTurn(t: Hooks, env: Env): Hooks { if env.gameplay then Advance(t, env) else Clear(t, env) }

  lemma EndedBits(t: Hooks, env: Env, x: int)
    requires Sound(t)
    ensures x in Indices(t.active) && x !in Indices(EndTurn(t, env).active) ==>
              if env.lift(x) then x !in EndTurn(t, env).on else x in EndTurn(t, env).pendingOff
    ensures x !in Indices(t.active) ==>
              && (x in EndTurn(t, env).on <==> x in t.on) && (x in EndTurn(t, env).ceded <==> x in t.ceded)
              && (x in EndTurn(t, env).pendingOff <==> x in t.pendingOff) && x !in Indices(EndTurn(t, env).active)
  {
    if env.gameplay {
      var aged := Aged(t.active, env.dt);
      assert Indices(aged) == Indices(t.active);
      SplitByTime(aged);
      hide Indices, Running, Expired, Aged, NoRepeats;
    }
  }

  lemma {:induction false} QueueKeepsActive(t: Hooks, table: Table, queue: seq<Queued>, n: nat, env: Env, x: int)
    requires TableOk(table) && n <= |queue|
    ensures x in Indices(t.active) ==> x in Indices(ArmAll(t, table, queue, n, env).active)
    ensures (forall k :: 0 <= k < n ==> !(queue[k].index == x && Takes(table, x, env))) ==>
              var t' := ArmAll(t, table, queue, n, env);
              && (x in Indices(t'.active) <==> x in Indices(t.active)) && (x in t'.pendingOff <==> x in t.pendingOff)
              && (x in t'.on <==> x in t.on) && (x in t'.ceded <==> x in t.ceded)
  {
    if n > 0 {
      QueueKeepsActive(t, table, queue, n - 1, env, x);
      var last := queue[n - 1];
      ArmKeepsOthers(ArmAll(t, table, queue, n - 1, env), table, last.index, last.override, env, x);
      hide ArmTrap, Indices, Takes;
    }
  }

  lemma ArmKeepsOthers(t: Hooks, table: Table, index: int, override: real, env: Env, x: int)
    requires TableOk(table)
    ensures var t' := ArmTrap(t, table, index, override, env).0;
            && (x in Indices(t.active) ==> x in Indices(t'.active))
            && (!(index == x && Takes(table, x, env)) ==>
                  && (x in Indices(t'.active) <==> x in Indices(t.active))
                  && (x in t'.pendingOff <==> x in t.pendingOff)
                  && (x in t'.on <==> x in t.on) && (x in t'.ceded <==> x in t.ceded))
  {
    if Takes(table, index, env) {
      ArmStateIndices(t.active, index, Seconds(table, index, override));
    }
  }

  // On every run a bit whose countdown a tick ends is off after that tick if its lift goes through, and waits
  // to be lifted if not.
  lemma EndedIsLifted(table: Table, inputs: seq<Input>, queue: seq<Queued>, env: Env, x: int)
    requires TableOk(table)
    requires var t := Run(table, inputs); x in Indices(t.active) && x !in Indices(Tick(t, table, queue, env).active)
    ensures var t' := Tick(Run(table, inputs), table, queue, env);
            if env.lift(x) then x !in t'.on else x in t'.pendingOff
  {
    var t := Run(table, inputs);
    NothingStranded(table, inputs);
    ArmAllKeeps(t, table, queue, |queue|, env);
    QueueKeepsActive(t, table, queue, |queue|, env, x);
    var t1 := ArmAll(t, table, queue, |queue|, env);
    RetryPendingKeeps(t1, env);
    assert Tick(t, table, queue, env) == EndTurn(RetryPending(t1, env), env);
    hide *;
    EndedBits(RetryPending(t1, env), env, x);
  }

  // On every run a bit waiting to be lifted, and not armed again, is settled by the first ready tick that can:
  // the player's own is left on for good, a lift that goes through takes it off, a refused one waits on.
  lemma PendingIsRetried(table: Table, inputs: seq<Input>, queue: seq<Queued>, env: Env, x: int)
    requires TableOk(table) && x in Run(table, inputs).pendingOff
    requires forall k :: 0 <= k < |queue| ==> !(queue[k].index == x && Takes(table, x, env))
    ensures var t' := Tick(Run(table, inputs), table, queue, env);
            if !env.ready then x in t'.pendingOff
            else if env.applied(x) then x in t'.on && x in t'.ceded && x !in t'.pendingOff
            else if env.retry(x) then x !in t'.on && x !in t'.pendingOff
            else x in t'.pendingOff
  {
    var t := Run(table, inputs);
    NothingStranded(table, inputs);
    ArmAllKeeps(t, table, queue, |queue|, env);
    QueueKeepsActive(t, table, queue, |queue|, env, x);
    var t1 := ArmAll(t, table, queue, |queue|, env);
    RetryPendingKeeps(t1, env);
    assert Tick(t, table, queue, env) == EndTurn(RetryPending(t1, env), env);
    PendingBits(t1, env, x);
    hide *;
    EndedBits(RetryPending(t1, env), env, x);
  }

  lemma PendingBits(t: Hooks, env: Env, x: int)
    requires Sound(t) && x in t.pendingOff
    ensures var t' := RetryPending(t, env);
            && x !in Indices(t'.active)
            && if !env.ready then x in t'.pendingOff
               else if env.applied(x) then x in t'.on && x in t'.ceded && x !in t'.pendingOff
               else if env.retry(x) then x !in t'.on && x !in t'.pendingOff
               else x in t'.pendingOff
  {
  }

  // No bit is given up that was not at some ready tick the player's own.
  ghost predicate OwnAt(inputs: seq<Input>, j: nat, x: int)
    requires j < |inputs|
  {
    inputs[j].TickIn? && inputs[j].env.ready && inputs[j].env.applied(x)
  }

  lemma {:induction false} CededWasOwn(table: Table, inputs: seq<Input>, x: int)
    requires x in Run(table, inputs).ceded
    ensures exists j :: 0 <= j < |inputs| && OwnAt(inputs, j, x)
  {
    if inputs != [] {
      var init, input := inputs[..|inputs| - 1], inputs[|inputs| - 1];
      if x in Run(table, init).ceded {
        CededWasOwn(table, init, x);
        var j :| 0 <= j < |init| && OwnAt(init, j, x);
        assert OwnAt(inputs, j, x);
      } else {
        CededStep(Run(table, init), table, input, x);
        assert OwnAt(inputs, |init|, x);
      }
    }
  }

  lemma CededStep(t: Hooks, table: Table, input: Input, x: int)
    requires x in Step(t, table, input).ceded && x !in t.ceded
    ensures input.TickIn? && input.env.ready && input.env.applied(x)
  {
    if input.TickIn? {
      QueueNeverCedes(t, table, input.queue, |input.queue|, input.env, x);
    }
  }

  lemma {:induction false} QueueNeverCedes(t: Hooks, table: Table, queue: seq<Queued>, n: nat, env: Env, x: int)
    requires n <= |queue| && x !in t.ceded
    ensures x !in ArmAll(t, table, queue, n, env).ceded
  {
    if n > 0 {
      QueueNeverCedes(t, table, queue, n - 1, env, x);
    }
  }
}
