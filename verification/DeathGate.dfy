/**
  The gate that decides when a local death is broadcast and when an inbound one may be applied: the class,
  its transition functions, and what they keep over every sequence of polls, bounces and kills.
 */
module DeathGate {

  const STABLE_TICKS: nat := 30
  const GRACE_TICKS: nat := 240

  datatype Gate = Gate(streak: nat, grace: nat, latched: bool, suppress: bool)

  const FRESH := Gate(0, 0, false, false)

  predicate Stable(g: Gate) { g.streak >= STABLE_TICKS }

  // The aging half of a poll.
  function Age(g: Gate, dying: bool, alive: bool, advanced: bool): Gate {
    if !advanced then g
    else if g.grace > 0 then g.(grace := g.grace - 1, streak := 0)
    else if alive && !dying then
      var streak := if g.streak < STABLE_TICKS then g.streak + 1 else g.streak;
      if streak >= STABLE_TICKS then g.(streak := streak, latched := false, suppress := false) else g.(streak := streak)
    else g.(streak := 0)
  }

  // A poll; the flag says a fresh local death is to be broadcast.
  function Observed(g: Gate, dying: bool, alive: bool, advanced: bool): (Gate, bool) {
    var g' := Age(g, dying, alive, advanced);
    if !dying then (g', false)
    else (g'.(grace := 0, latched := true), !g'.latched && !g'.suppress)
  }

  function Received(g: Gate): Gate { g.(suppress := true) }

  function Applied(g: Gate): Gate { g.(suppress := true, grace := GRACE_TICKS, streak := 0) }

  class DeathBroadcastGate {
    var aliveStreak: nat
    var inboundGrace: nat
    var latched: bool
    var suppress: bool

    ghost function View(): Gate
      reads this
    {
      Gate(aliveStreak, inboundGrace, latched, suppress)
    }

    constructor ()
      ensures View() == FRESH
    {
      aliveStreak, inboundGrace, latched, suppress := 0, 0, false, false;
    }

    method Observe(dying: bool, alive: bool, advanced: bool) returns (broadcast: bool)
      modifies this
      ensures (View(), broadcast) == Observed(old(View()), dying, alive, advanced)
    {
      if !advanced {
        // nothing the game has queued can land, so no timer ages
      } else if inboundGrace > 0 {
        inboundGrace := inboundGrace - 1;
        aliveStreak := 0;
      } else if alive && !dying {
        if aliveStreak < STABLE_TICKS {
          aliveStreak := aliveStreak + 1;
        }
        if aliveStreak >= STABLE_TICKS {
          latched := false;
          suppress := false;
        }
      } else {
        aliveStreak := 0;
      }
      if dying {
        inboundGrace := 0;
        if latched {
          return false;
        }
        latched := true;
        return !suppress;
      }
      return false;
    }

    method NoteInboundDeathReceived()
      modifies this
      ensures View() == Received(old(View()))
    {
      suppress := true;
    }

    method NoteInboundDeathApplied()
      modifies this
      ensures View() == Applied(old(View()))
    {
      suppress := true;
      inboundGrace := GRACE_TICKS;
      aliveStreak := 0;
    }
  }

  // ---- Runs of the gate ----

  datatype Op = Poll(dying: bool, alive: bool, advanced: bool) | Bounce | Kill

  function Next(g: Gate, op: Op): Gate {
    match op
    case Poll(dying, alive, advanced) => Observed(g, dying, alive, advanced).0
    case Bounce => Received(g)
    case Kill => Applied(g)
  }

  function After(g: Gate, ops: seq<Op>): Gate {
    if ops == [] then g else Next(After(g, ops[..|ops| - 1]), ops[|ops| - 1])
  }

  // Does the last operation of the run broadcast?
  predicate Broadcasts(g: Gate, ops: seq<Op>) {
    ops != [] && ops[|ops| - 1].Poll? &&
    var op := ops[|ops| - 1];
    Observed(After(g, ops[..|ops| - 1]), op.dying, op.alive, op.advanced).1
  }

  predicate Settled(op: Op) { op.Poll? && op.advanced && op.alive && !op.dying }

  predicate Advanced(op: Op) { op.Poll? && op.advanced }

  predicate Dying(op: Op) { op.Poll? && op.dying }

  function Count(p: Op -> bool, ops: seq<Op>): nat {
    if ops == [] then 0 else Count(p, ops[..|ops| - 1]) + (if p(ops[|ops| - 1]) then 1 else 0)
  }

  // No echo: from an applied death until the gate next reads stably alive, nothing is broadcast.
  lemma {:induction false} NoEcho(g: Gate, ops: seq<Op>)
    requires forall k :: 0 <= k < |ops| ==> !Stable(After(Applied(g), ops[..k]))
    ensures !Broadcasts(Applied(g), ops)
    ensures After(Applied(g), ops).suppress || Stable(After(Applied(g), ops))
  {
    if ops != [] {
      var init := ops[..|ops| - 1];
      forall k | 0 <= k < |init| ensures !Stable(After(Applied(g), init[..k])) {
        assert init[..k] == ops[..k];
      }
      NoEcho(g, init);
      assert !Stable(After(Applied(g), init));
    }
  }

  // ---- The gate in terms of the operations alone ----

  // By the first n operations the grace of every kill was spent on advanced polls or cut by a death reading.
  ghost predicate GraceOver(ops: seq<Op>, n: nat)
    requires n <= |ops|
  {
    forall k :: 0 <= k < n ==> KillSpent(ops[..n], k, 0)
  }

  // If operation k is a kill, at most `left` ticks of its grace remain at the end.
  ghost predicate KillSpent(ops: seq<Op>, k: nat, left: nat)
    requires k < |ops|
  {
    ops[k] == Kill ==> GraceSpent(ops[k + 1..], left)
  }

  // At most `left` ticks of a grace that started before these operations remain after them.
  ghost predicate GraceSpent(since: seq<Op>, left: nat) {
    Count(Advanced, since) + left >= 240 || exists d :: 0 <= d < |since| && Dying(since[d])
  }

  // A kill, or an advanced poll that is not settled.
  predicate Breaks(op: Op) { op == Kill || (Advanced(op) && !Settled(op)) }

  // The operations from s on are an unbroken stretch of at least n settled polls, with no grace running.
  ghost predicate Stretch(ops: seq<Op>, s: nat, n: nat) {
    && s <= |ops| && GraceOver(ops, s)
    && (forall j :: s <= j < |ops| ==> !Breaks(ops[j]))
    && Count(Settled, ops[s..]) >= n
  }

  // Such a stretch leads up to the end.
  ghost predicate StreakAtLeast(ops: seq<Op>, n: nat) { exists s: nat :: Stretch(ops, s, n) }

  // Operation i settles the respawn: it completes an unbroken stretch of thirty settled polls.
  ghost predicate SettlesAt(ops: seq<Op>, i: nat) {
    i < |ops| && Settled(ops[i]) && StreakAtLeast(ops[..i + 1], 30)
  }

  lemma CountSnoc(p: Op -> bool, ops: seq<Op>, op: Op)
    ensures Count(p, ops + [op]) == Count(p, ops) + (if p(op) then 1 else 0)
  {
    assert (ops + [op])[..|ops|] == ops;
  }

  lemma GraceSpentSnoc(since: seq<Op>, op: Op, left: nat)
    ensures Dying(op) ==> GraceSpent(since + [op], left)
    ensures !Dying(op) && Advanced(op) ==> (GraceSpent(since + [op], left) <==> GraceSpent(since, left + 1))
    ensures !Dying(op) && !Advanced(op) ==> (GraceSpent(since + [op], left) <==> GraceSpent(since, left))
  {
    var more := since + [op];
    CountSnoc(Advanced, since, op);
    if Dying(op) {
      assert Dying(more[|since|]);
    }
    if exists d :: 0 <= d < |since| && Dying(since[d]) {
      var d :| 0 <= d < |since| && Dying(since[d]);
      assert Dying(more[d]);
    }
    assert forall d :: 0 <= d < |since| ==> more[d] == since[d];
  }

  // What is left of the grace, by the operations.
  ghost predicate GraceAtMost(ops: seq<Op>, left: nat) {
    forall k :: 0 <= k < |ops| ==> KillSpent(ops, k, left)
  }

  lemma GraceAtMostSnoc(ops: seq<Op>, op: Op, left: nat)
    requires left < GRACE_TICKS
    ensures op == Kill ==> !GraceAtMost(ops + [op], left)
    ensures Dying(op) ==> GraceAtMost(ops + [op], left)
    ensures op != Kill && !Dying(op) ==>
              (GraceAtMost(ops + [op], left) <==> GraceAtMost(ops, if Advanced(op) then left + 1 else left))
  {
    var more, n := ops + [op], |ops|;
    if op == Kill {
      assert more[n] == Kill && more[n + 1..] == [];
      assert !KillSpent(more, n, left);
    } else {
      var before := if Advanced(op) then left + 1 else left;
      assert KillSpent(more, n, left);
      forall k | 0 <= k < n
        ensures Dying(op) ==> KillSpent(more, k, left)
        ensures !Dying(op) ==> (KillSpent(more, k, left) <==> KillSpent(ops, k, before))
      {
        assert more[k] == ops[k] && more[k + 1..] == ops[k + 1..] + [op];
        GraceSpentSnoc(ops[k + 1..], op, left);
      }
      hide KillSpent;
    }
  }

  lemma {:induction false} GraceIsHistory(ops: seq<Op>, left: nat)
    requires left <= GRACE_TICKS
    ensures After(FRESH, ops).grace <= GRACE_TICKS
    ensures After(FRESH, ops).grace <= left <==> GraceAtMost(ops, left)
  {
    if left == GRACE_TICKS {
      GraceBounded(ops);
      forall k | 0 <= k < |ops| ensures KillSpent(ops, k, left) {
      }
    } else if ops != [] {
      var init, op := ops[..|ops| - 1], ops[|ops| - 1];
      assert ops == init + [op];
      GraceIsHistory(init, left);
      GraceIsHistory(init, left + 1);
      GraceAtMostSnoc(init, op, left);
      hide GraceAtMost;
    }
  }

  lemma {:induction false} GraceBounded(ops: seq<Op>)
    ensures After(FRESH, ops).grace <= GRACE_TICKS
  {
    if ops != [] {
      GraceBounded(ops[..|ops| - 1]);
    }
  }

  lemma GraceOverIff(ops: seq<Op>)
    ensures GraceOver(ops, |ops|) <==> After(FRESH, ops).grace == 0
  {
    GraceIsHistory(ops, 0);
    assert ops[..|ops|] == ops;
    hide KillSpent, After;
  }

  lemma {:induction false} GraceStaysSpent(since: seq<Op>, more: seq<Op>)
    requires GraceSpent(since, 0)
    ensures GraceSpent(since + more, 0)
  {
    if more == [] {
      assert since + more == since;
    } else {
      var init, op := more[..|more| - 1], more[|more| - 1];
      GraceStaysSpent(since, init);
      assert since + more == (since + init) + [op];
      GraceSpentSnoc(since + init, op, 0);
    }
  }

  // A stretch has no grace running anywhere in it.
  lemma StretchHasNoGrace(ops: seq<Op>, s: nat, n: nat)
    requires Stretch(ops, s, n)
    ensures After(FRESH, ops).grace == 0
  {
    forall k | 0 <= k < |ops| && ops[k] == Kill ensures GraceSpent(ops[k + 1..], 0) {
      assert k < s && KillSpent(ops[..s], k, 0);
      GraceStaysSpent(ops[..s][k + 1..], ops[s..]);
      assert ops[..s][k + 1..] + ops[s..] == ops[k + 1..];
    }
    assert ops[..|ops|] == ops;
    GraceOverIff(ops);
  }

  lemma StretchSnoc(ops: seq<Op>, op: Op, s: nat, n: nat)
    requires s <= |ops|
    ensures Stretch(ops + [op], s, n) <==>
            !Breaks(op) && Stretch(ops, s, if Settled(op) && n > 0 then n - 1 else n)
  {
    var more := ops + [op];
    assert more[s..] == ops[s..] + [op];
    CountSnoc(Settled, ops[s..], op);
    assert more[..s] == ops[..s];
    assert more[|ops|] == op && forall j :: 0 <= j < |ops| ==> more[j] == ops[j];
    hide GraceOver;
  }

  lemma EmptyStretch(ops: seq<Op>, s: nat, n: nat)
    requires Stretch(ops, s, n) && n > 0
    ensures s < |ops|
  {
    CountBounded(Settled, ops[s..]);
  }

  lemma {:induction false} CountBounded(p: Op -> bool, ops: seq<Op>)
    ensures Count(p, ops) <= |ops|
  {
    if ops != [] {
      CountBounded(p, ops[..|ops| - 1]);
    }
  }

  lemma {:induction false} StreakIsHistory(ops: seq<Op>, n: nat)
    requires 1 <= n <= STABLE_TICKS
    ensures After(FRESH, ops).streak >= n <==> StreakAtLeast(ops, n)
  {
    hide Stretch;
    if ops == [] {
      forall s: nat ensures !Stretch(ops, s, n) {
        if Stretch(ops, s, n) {
          EmptyStretch(ops, s, n);
        }
      }
    } else {
      var init, op := ops[..|ops| - 1], ops[|ops| - 1];
      assert ops == init + [op];
      StreakIsHistory(init, n);
      if n > 1 {
        StreakIsHistory(init, n - 1);
      }
      StreakStep(init, op, n);
    }
  }

  lemma StreakStep(ops: seq<Op>, op: Op, n: nat)
    requires 1 <= n <= STABLE_TICKS
    requires After(FRESH, ops).streak >= n <==> StreakAtLeast(ops, n)
    requires n > 1 ==> (After(FRESH, ops).streak >= n - 1 <==> StreakAtLeast(ops, n - 1))
    ensures After(FRESH, ops + [op]).streak >= n <==> StreakAtLeast(ops + [op], n)
  {
    var more, g := ops + [op], After(FRESH, ops);
    assert more[..|ops|] == ops;
    StreakAtLeastSnoc(ops, op, n);
    if Settled(op) {
      if StreakAtLeast(ops, n - 1) {
        var s: nat :| Stretch(ops, s, n - 1);
        StretchHasNoGrace(ops, s, n - 1);
      } else if n == 1 {
        GraceOverIff(ops);
        assert g.grace == 0 ==> Stretch(ops, |ops|, 0);
      }
    } else if Advanced(op) || op == Kill {
    } else if StreakAtLeast(ops, n) {
      var s: nat :| Stretch(ops, s, n);
    }
    hide Stretch, GraceOver;
  }

  lemma StreakAtLeastSnoc(ops: seq<Op>, op: Op, n: nat)
    requires n >= 1
    ensures StreakAtLeast(ops + [op], n) <==>
            !Breaks(op) && StreakAtLeast(ops, if Settled(op) then n - 1 else n)
  {
    hide Stretch;
    var m := if Settled(op) then n - 1 else n;
    if StreakAtLeast(ops + [op], n) {
      var s: nat :| Stretch(ops + [op], s, n);
      EmptyStretch(ops + [op], s, n);
      StretchSnoc(ops, op, s, n);
    }
    if !Breaks(op) && StreakAtLeast(ops, m) {
      var s: nat :| Stretch(ops, s, m);
      StretchInside(ops, s, m);
      StretchSnoc(ops, op, s, n);
      assert Stretch(ops + [op], s, n);
    }
  }

  lemma StretchInside(ops: seq<Op>, s: nat, n: nat)
    requires Stretch(ops, s, n)
    ensures s <= |ops|
  {
  }

  // A poll that makes the gate lift its flags is one that settles the respawn by the operations.
  lemma SettlesIff(ops: seq<Op>, op: Op)
    ensures SettlesAt(ops + [op], |ops|) <==>
            Settled(op) && After(FRESH, ops).grace == 0 && Stable(After(FRESH, ops + [op]))
  {
    var more := ops + [op];
    assert more[..|ops| + 1] == more && more[..|ops|] == ops;
    StreakIsHistory(more, STABLE_TICKS);
    hide Stretch;
    assert Settled(op) && After(FRESH, ops).grace > 0 ==> After(FRESH, more).streak == 0;
  }

  // Since operation j, the respawn has settled.
  ghost predicate SettledSince(ops: seq<Op>, j: nat) {
    exists i :: j < i < |ops| && SettlesAt(ops, i)
  }

  lemma SettledSinceSnoc(ops: seq<Op>, op: Op, j: nat)
    requires j < |ops|
    ensures SettledSince(ops + [op], j) <==> SettledSince(ops, j) || SettlesAt(ops + [op], |ops|)
  {
    var more := ops + [op];
    forall i | 0 <= i < |ops| ensures SettlesAt(more, i) <==> SettlesAt(ops, i) {
      assert more[..i + 1] == ops[..i + 1];
    }
    hide SettlesAt;
    if SettledSince(ops, j) {
      var i :| j < i < |ops| && SettlesAt(ops, i);
      assert SettlesAt(more, i);
    }
  }

  lemma {:induction false} FlagsAreHistory(ops: seq<Op>)
    ensures After(FRESH, ops).latched <==> exists j :: 0 <= j < |ops| && Dying(ops[j]) && !SettledSince(ops, j)
    ensures After(FRESH, ops).suppress <==> exists j :: 0 <= j < |ops| && !ops[j].Poll? && !SettledSince(ops, j)
  {
    hide SettledSince, SettlesAt;
    if ops != [] {
      var init, op, n := ops[..|ops| - 1], ops[|ops| - 1], |ops| - 1;
      assert ops == init + [op];
      FlagsAreHistory(init);
      SettlesIff(init, op);
      FlagsStep(After(FRESH, init), op, SettlesAt(ops, n));
      hide After, Next;
      LastNotSettled(ops);
      forall j | 0 <= j < n
        ensures init[j] == ops[j] && (SettledSince(ops, j) <==> SettledSince(init, j) || SettlesAt(ops, n)) {
        SettledSinceSnoc(init, op, j);
      }
    }
  }

  lemma LastNotSettled(ops: seq<Op>)
    requires ops != []
    ensures !SettledSince(ops, |ops| - 1)
  {
  }

  // What one operation does to the flags.
  lemma FlagsStep(g: Gate, op: Op, settles: bool)
    requires settles <==> Settled(op) && g.grace == 0 && Stable(Next(g, op))
    ensures Next(g, op).latched == (Dying(op) || (g.latched && !settles))
    ensures Next(g, op).suppress == (!op.Poll? || (g.suppress && !settles))
  {
  }

  // Exactly when a poll broadcasts: it is a death, and the respawn has settled since every earlier death
  // reading and every inbound one.
  lemma BroadcastIff(ops: seq<Op>, op: Op)
    requires op.Poll?
    ensures Broadcasts(FRESH, ops + [op]) <==>
            op.dying && forall j :: 0 <= j < |ops| && (Dying(ops[j]) || !ops[j].Poll?) ==> SettledSince(ops, j)
  {
    FlagsAreHistory(ops);
    assert (ops + [op])[..|ops|] == ops;
  }

  // ---- Spacing of broadcasts ----

  lemma {:induction false} LatchHolds(g: Gate, ops: seq<Op>)
    requires g.latched && g.streak <= STABLE_TICKS
    ensures var g', n := After(g, ops), Count(Settled, ops);
            g'.streak <= g.streak + n && g'.streak <= STABLE_TICKS &&
            (g'.latched || (n >= 1 && g.streak + n >= STABLE_TICKS))
  {
    if ops != [] {
      LatchHolds(g, ops[..|ops| - 1]);
    }
  }

  function Alive(n: nat): seq<Op> { seq(n, _ => Poll(false, true, true)) }

  lemma {:induction false} AlivePolls(g: Gate, n: nat)
    requires g.grace == 0 && g.streak <= STABLE_TICKS
    ensures var g' := After(g, Alive(n));
            && g'.grace == 0 && g'.streak == (if g.streak + n < STABLE_TICKS then g.streak + n else STABLE_TICKS)
            && (n > 0 && Stable(g') ==> !g'.latched && !g'.suppress)
    ensures Count(Settled, Alive(n)) == n
  {
    if n > 0 {
      assert Alive(n)[..n - 1] == Alive(n - 1);
      AlivePolls(g, n - 1);
    }
  }

  // A broadcast edge guarantees 30 settled polls before the next one, whatever comes in between, exactly
  // when it falls on an advanced poll or the streak was broken already: a frozen edge keeps the old streak.
  lemma EdgeSpacingIff(g: Gate, alive: bool, advanced: bool)
    requires g.streak <= STABLE_TICKS && Observed(g, true, alive, advanced).1
    ensures var edge := Observed(g, true, alive, advanced).0;
            (forall ops :: Broadcasts(edge, ops) ==> Count(Settled, ops) >= STABLE_TICKS) <==> advanced || g.streak == 0
  {
    var edge := Observed(g, true, alive, advanced).0;
    if advanced || g.streak == 0 {
      forall ops | Broadcasts(edge, ops) ensures Count(Settled, ops) >= STABLE_TICKS {
        LatchHolds(edge, ops[..|ops| - 1]);
      }
    } else {
      var n := if g.streak < STABLE_TICKS then STABLE_TICKS - g.streak else 1;
      var ops := Alive(n) + [Poll(true, false, true)];
      AlivePolls(edge, n);
      assert ops[..n] == Alive(n);
      assert Broadcasts(edge, ops) && Count(Settled, ops) == n < STABLE_TICKS;
    }
  }

  // ---- Spacing of kills ----

  // A kill needs a stable gate; after the last one that takes 30 settled polls, and 240 more advanced ones
  // when no dying poll cuts the grace short.
  lemma {:induction false} StableAfterKillTakes(g: Gate, ops: seq<Op>)
    requires Stable(After(Applied(g), ops))
    ensures Count(Settled, ops) >= STABLE_TICKS
    ensures (forall k :: 0 <= k < |ops| ==> !Dying(ops[k])) ==> Count(Advanced, ops) >= GRACE_TICKS + STABLE_TICKS
  {
    StreakIsEarned(Applied(g), ops);
  }

  lemma {:induction false} StreakIsEarned(g: Gate, ops: seq<Op>)
    requires g.streak == 0
    ensures After(g, ops).streak <= Count(Settled, ops)
    ensures After(g, ops).grace > 0 ==> After(g, ops).streak == 0
    ensures (forall k :: 0 <= k < |ops| ==> !Dying(ops[k])) && g.grace == GRACE_TICKS ==>
              After(g, ops).grace + Count(Advanced, ops) >= GRACE_TICKS + After(g, ops).streak
  {
    if ops != [] {
      StreakIsEarned(g, ops[..|ops| - 1]);
    }
  }
}
