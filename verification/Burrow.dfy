/**
  The land/water boundary watcher: a debounced mode tracker that acts at most once per arm, and the
  per-tick driver that feeds it. Exactly when it acts is stated over the readings since the arm.
 */
module Burrow {

  const CONFIRM_TICKS: nat := 10
  const BURROW_GRACE: nat := 2

  datatype Action = NoAction | FallIn | Emerge

  datatype Mode = Disarmed | Land | Water

  datatype Gate = Gate(mode: Mode, lastDeep: bool, confirmed: nat, notBurrowing: nat)

  function Arm(g: Gate, deep: bool): Gate { Gate(if deep then Water else Land, deep, CONFIRM_TICKS, 0) }

  function Disarm(g: Gate): Gate { g.(mode := Disarmed) }

  function ObserveBurrowing(g: Gate, burrowing: bool): Gate {
    if burrowing then g.(notBurrowing := 0)
    else
      var g' := g.(notBurrowing := g.notBurrowing + 1);
      if g'.notBurrowing >= BURROW_GRACE then Disarm(g') else g'
  }

  function ReadingUnavailable(g: Gate): Gate { g.(confirmed := 0) }

  function Observed(g: Gate, deep: bool, burrowBlocked: bool, swimBlocked: bool): (Gate, Action) {
    if g.mode.Disarmed? then (g, NoAction)
    else
      var g' := if deep != g.lastDeep then g.(lastDeep := deep, confirmed := 1)
                else if g.confirmed < CONFIRM_TICKS then g.(confirmed := g.confirmed + 1)
                else g;
      if g'.confirmed < CONFIRM_TICKS then (g', NoAction)
      else if g'.mode.Land? && deep then (if swimBlocked then (Disarm(g'), FallIn) else (g'.(mode := Water), NoAction))
      else if g'.mode.Water? && !deep then
         (if burrowBlocked then (Disarm(g'), Emerge) else (g'.(mode := Land), NoAction))
      else (g', NoAction)
  }

  class BurrowBoundaryGate {
    var mode: Mode
    var lastDeep: bool
    var confirmed: nat
    var notBurrowing: nat

    ghost function View(): Gate
      reads this
    {
      Gate(mode, lastDeep, confirmed, notBurrowing)
    }

    constructor ()
      ensures View() == Gate(Disarmed, false, 0, 0)
    {
      mode, lastDeep, confirmed, notBurrowing := Disarmed, false, 0, 0;
    }

    method ArmGate(deep: bool)
      modifies this
      ensures View() == Arm(old(View()), deep)
    {
      mode := if deep then Water else Land;
      lastDeep := deep;
      confirmed := CONFIRM_TICKS;
      notBurrowing := 0;
    }

    method DisarmGate()
      modifies this
      ensures View() == Disarm(old(View()))
    {
      mode := Disarmed;
    }

    method NoteBurrowing(burrowing: bool)
      modifies this
      ensures View() == ObserveBurrowing(old(View()), burrowing)
    {
      if burrowing {
        notBurrowing := 0;
      } else {
        notBurrowing := notBurrowing + 1;
        if notBurrowing >= BURROW_GRACE {
          mode := Disarmed;
        }
      }
    }

    method NoteUnavailable()
      modifies this
      ensures View() == ReadingUnavailable(old(View()))
    {
      confirmed := 0;
    }

    method Observe(deep: bool, burrowBlocked: bool, swimBlocked: bool) returns (action: Action)
      modifies this
      ensures (View(), action) == Observed(old(View()), deep, burrowBlocked, swimBlocked)
    {
      if mode.Disarmed? {
        return NoAction;
      }
      if deep != lastDeep {
        lastDeep := deep;
        confirmed := 1;
      } else if confirmed < CONFIRM_TICKS {
        confirmed := confirmed + 1;
      }
      if confirmed < CONFIRM_TICKS {
        return NoAction;
      }
      if mode.Land? && deep {
        if swimBlocked {
          mode := Disarmed;
          return FallIn;
        }
        mode := Water;
      } else if mode.Water? && !deep {
        if burrowBlocked {
          mode := Disarmed;
          return Emerge;
        }
        mode := Land;
      }
      return NoAction;
    }
  }

  // ---- The history since an arm ----

  datatype Event = Reading(deep: bool, burrowBlocked: bool, swimBlocked: bool) | Unavailable

  function Next(g: Gate, e: Event): Gate {
    match e
    case Reading(deep, burrowBlocked, swimBlocked) => Observed(g, deep, burrowBlocked, swimBlocked).0
    case Unavailable => ReadingUnavailable(g)
  }

  function After(g: Gate, events: seq<Event>): Gate {
    if events == [] then g else Next(After(g, events[..|events| - 1]), events[|events| - 1])
  }

  // The last ten events are readings, and all of them say `deep`.
  predicate LastTenSay(events: seq<Event>, deep: bool) {
    |events| >= 10 &&
    forall i :: |events| - 10 <= i < |events| ==> events[i].Reading? && events[i].deep == deep
  }

  // Where the player is, by the readings alone: the armed side, until ten readings in a row say otherwise.
  function InWater(armedDeep: bool, events: seq<Event>): bool {
    if events == [] then armedDeep
    else
      var before := InWater(armedDeep, events[..|events| - 1]);
      if LastTenSay(events, !before) then !before else before
  }

  // How many events at the end of the history are readings of `deep`.
  function Tail(events: seq<Event>, deep: bool): nat {
    if events == [] then 0
    else
      var e := events[|events| - 1];
      if e.Reading? && e.deep == deep then Tail(events[..|events| - 1], deep) + 1 else 0
  }

  lemma {:induction false} TailCounts(events: seq<Event>, deep: bool, n: nat)
    ensures Tail(events, deep) <= |events|
    ensures Tail(events, deep) >= n <==>
            n <= |events| && forall i :: |events| - n <= i < |events| ==> events[i].Reading? && events[i].deep == deep
  {
    if events != [] && n > 0 {
      var init, e := events[..|events| - 1], events[|events| - 1];
      TailCounts(init, deep, n - 1);
      if e.Reading? && e.deep == deep && n <= |events| {
        assert forall i :: |init| - (n - 1) <= i < |init| ==> init[i] == events[i];
        assert forall i :: |events| - n <= i < |events| - 1 ==> init[i] == events[i];
      }
    } else if events != [] {
      TailCounts(events[..|events| - 1], deep, 0);
    }
  }

  // While armed, the counters are a digest of the history: the mode is the side the readings give, and a
  // run of opposite readings is counted from its start, gaps breaking it.
  lemma {:induction false} CountersAreHistory(g: Gate, armedDeep: bool, events: seq<Event>)
    requires !After(Arm(g, armedDeep), events).mode.Disarmed?
    ensures var a, side := After(Arm(g, armedDeep), events), InWater(armedDeep, events);
            && a.mode == (if side then Water else Land)
            && Tail(events, !side) == (if a.lastDeep != side then a.confirmed else 0)
            && Tail(events, !side) < CONFIRM_TICKS
  {
    if events != [] {
      var init, e := events[..|events| - 1], events[|events| - 1];
      var before := After(Arm(g, armedDeep), init);
      assert !before.mode.Disarmed?;
      CountersAreHistory(g, armedDeep, init);
      TailCounts(events, !InWater(armedDeep, init), CONFIRM_TICKS);
      TailIsOneSided(events, InWater(armedDeep, init));
    }
  }

  lemma TailIsOneSided(events: seq<Event>, deep: bool)
    ensures Tail(events, deep) > 0 ==> Tail(events, !deep) == 0
  {
  }

  // Exactly when an armed gate acts: the last ten readings since the arm agree, unbroken, on the side the
  // player is not on, and that side's ability is blocked.
  lemma ActsIff(g: Gate, armedDeep: bool, events: seq<Event>, e: Event)
    requires e.Reading? && !After(Arm(g, armedDeep), events).mode.Disarmed?
    ensures var action := Observed(After(Arm(g, armedDeep), events), e.deep, e.burrowBlocked, e.swimBlocked).1;
            var side := InWater(armedDeep, events);
            && (action == FallIn <==> !side && LastTenSay(events + [e], true) && e.swimBlocked)
            && (action == Emerge <==> side && LastTenSay(events + [e], false) && e.burrowBlocked)
  {
    CountersAreHistory(g, armedDeep, events);
    var side := InWater(armedDeep, events);
    assert (events + [e])[..|events|] == events;
    TailCounts(events + [e], !side, CONFIRM_TICKS);
  }

  // An action consumes the arm: nothing but a new arm wakes the gate again.
  lemma {:induction false} OneActionPerArm(g: Gate, events: seq<Event>, e: Event)
    requires g.mode.Disarmed?
    ensures After(g, events).mode.Disarmed?
    ensures e.Reading? ==> Observed(After(g, events), e.deep, e.burrowBlocked, e.swimBlocked).1 == NoAction
  {
    if events != [] {
      OneActionPerArm(g, events[..|events| - 1], e);
    }
  }

  lemma ActionDisarms(g: Gate, deep: bool, burrowBlocked: bool, swimBlocked: bool)
    ensures var (g', action) := Observed(g, deep, burrowBlocked, swimBlocked);
            action != NoAction ==> g'.mode.Disarmed?
  {
  }

  // ---- The driver ----

  // One tick: the player (0 for none), the pause flag, and what the game reads; water < 0 is no reading.
  datatype Tick = Tick(player: int, paused: bool, burrowing: bool, enforce: bool,
                       water: int, burrowBlocked: bool, swimBlocked: bool)

  datatype Driver = Driver(gate: Gate, lastPlayer: int)

  function Drive(d: Driver, t: Tick): (Driver, Action) {
    if t.player == 0 || t.player != d.lastPlayer then (Driver(Disarm(d.gate), t.player), NoAction)
    else if t.paused then (d, NoAction)
    else
      var gate := ObserveBurrowing(d.gate, t.burrowing);
      if !t.burrowing || !t.enforce || gate.mode.Disarmed? then (d.(gate := gate), NoAction)
      else if t.water < 0 then (d.(gate := ReadingUnavailable(gate)), NoAction)
      else
        var (gate', action) := Observed(gate, t.water == 1, t.burrowBlocked, t.swimBlocked);
        (d.(gate := gate'), action)
  }

  function DriveAll(d: Driver, ticks: seq<Tick>): Driver {
    if ticks == [] then d else Drive(DriveAll(d, ticks[..|ticks| - 1]), ticks[|ticks| - 1]).0
  }

  // Does this tick deliver a reading to an armed gate?
  predicate Reads(t: Tick) { t.player != 0 && !t.paused && t.burrowing && t.enforce && t.water >= 0 }

  function CountReads(ticks: seq<Tick>): nat {
    if ticks == [] then 0 else CountReads(ticks[..|ticks| - 1]) + (if Reads(ticks[|ticks| - 1]) then 1 else 0)
  }

  // How many polls at the end of the history find the player out of the burrow; a paused tick is no poll.
  function OutInARow(ticks: seq<Tick>): nat {
    if ticks == [] then 0
    else
      var before, t := OutInARow(ticks[..|ticks| - 1]), ticks[|ticks| - 1];
      if t.paused then before else if t.burrowing then 0 else before + 1
  }

  // From an arm to the action it pays for: the player never changes or vanishes, no two polls in a row ever
  // find it out of the burrow, and a run of opposite readings is no longer than the readings delivered.
  ghost predicate ArmedRun(d: Driver, ticks: seq<Tick>, d': Driver) {
    && d'.lastPlayer == d.lastPlayer
    && (forall i :: 0 <= i < |ticks| ==> ticks[i].player == d.lastPlayer != 0)
    && (forall n :: 0 <= n <= |ticks| ==> OutInARow(ticks[..n]) < BURROW_GRACE)
    && d'.gate.notBurrowing == OutInARow(ticks)
    && (d'.gate.lastDeep != d'.gate.mode.Water? ==> d'.gate.confirmed <= CountReads(ticks))
  }

  lemma {:induction false} WhileArmed(d: Driver, deep: bool, ticks: seq<Tick>)
    requires d.gate == Arm(d.gate, deep) && !DriveAll(d, ticks).gate.mode.Disarmed?
    ensures ArmedRun(d, ticks, DriveAll(d, ticks))
  {
    if ticks != [] {
      var init, before := ticks[..|ticks| - 1], DriveAll(d, ticks[..|ticks| - 1]);
      DriveStaysDisarmed(before, ticks[|ticks| - 1]);
      WhileArmed(d, deep, init);
      OneMoreTick(before, ticks[|ticks| - 1]);
      assert ticks[..|ticks|] == ticks;
      hide Drive;
      forall n | 0 <= n <= |ticks| ensures OutInARow(ticks[..n]) < BURROW_GRACE {
        assert n < |ticks| ==> ticks[..n] == init[..n];
      }
    } else {
      assert forall n :: 0 <= n <= |ticks| ==> ticks[..n] == [];
    }
  }

  // No tick arms the gate.
  lemma DriveStaysDisarmed(d: Driver, t: Tick)
    ensures d.gate.mode.Disarmed? ==> Drive(d, t).0.gate.mode.Disarmed?
  {
  }

  // One tick that leaves the gate armed.
  lemma OneMoreTick(d: Driver, t: Tick)
    requires !d.gate.mode.Disarmed? && !Drive(d, t).0.gate.mode.Disarmed?
    ensures var d' := Drive(d, t).0;
            && t.player == d.lastPlayer == d'.lastPlayer != 0
            && d'.gate.notBurrowing ==
                   (if t.paused then d.gate.notBurrowing else if t.burrowing then 0 else d.gate.notBurrowing + 1)
            && (!t.paused && !t.burrowing ==> d'.gate.notBurrowing < BURROW_GRACE)
            && (d'.gate.lastDeep != d'.gate.mode.Water? ==>
                  if d.gate.lastDeep != d.gate.mode.Water? then
                    d'.gate.confirmed <= d.gate.confirmed + (if Reads(t) then 1 else 0)
                  else d'.gate.confirmed <= 1 && Reads(t))
  {
  }

  lemma ActionNeedsTenReadings(d: Driver, deep: bool, ticks: seq<Tick>, t: Tick)
    requires d.gate == Arm(d.gate, deep) && Drive(DriveAll(d, ticks), t).1 != NoAction
    ensures forall i :: 0 <= i < |ticks| ==> ticks[i].player == d.lastPlayer
    ensures t.player == d.lastPlayer != 0 && Reads(t)
    ensures CountReads(ticks) + 1 >= CONFIRM_TICKS
  {
    WhileArmed(d, deep, ticks);
  }

  // What a tick delivers to an armed gate: nothing when paused, out of the burrow or not enforced.
  function EventOf(t: Tick): seq<Event> {
    if t.paused || !t.burrowing || !t.enforce then []
    else if t.water < 0 then [Unavailable]
    else [Reading(t.water == 1, t.burrowBlocked, t.swimBlocked)]
  }

  function EventsOf(ticks: seq<Tick>): seq<Event> {
    if ticks == [] then [] else EventsOf(ticks[..|ticks| - 1]) + EventOf(ticks[|ticks| - 1])
  }

  lemma OneMoreEvent(g: Gate, events: seq<Event>, t: Tick)
    ensures After(g, events + EventOf(t)) ==
            if EventOf(t) == [] then After(g, events) else Next(After(g, events), EventOf(t)[0])
  {
    if EventOf(t) == [] {
      assert events + EventOf(t) == events;
    } else {
      assert (events + EventOf(t))[..|events|] == events;
    }
  }

  // One tick on a gate that is a directly fed one but for its count of polls out of the burrow.
  lemma DrivenStep(d: Driver, g: Gate, t: Tick)
    requires d.gate == g.(notBurrowing := d.gate.notBurrowing)
    requires !d.gate.mode.Disarmed? && !Drive(d, t).0.gate.mode.Disarmed?
    ensures var g' := Drive(d, t).0.gate;
            g' == (if EventOf(t) == [] then g else Next(g, EventOf(t)[0])).(notBurrowing := g'.notBurrowing)
  {
  }

  // While armed, the driver's gate is a gate fed directly with what the ticks delivered.
  lemma {:induction false} DrivenGate(d: Driver, deep: bool, ticks: seq<Tick>)
    requires d.gate == Arm(d.gate, deep) && !DriveAll(d, ticks).gate.mode.Disarmed?
    ensures var g := DriveAll(d, ticks).gate;
            g == After(Arm(d.gate, deep), EventsOf(ticks)).(notBurrowing := g.notBurrowing)
  {
    if ticks != [] {
      var init, t := ticks[..|ticks| - 1], ticks[|ticks| - 1];
      var before := DriveAll(d, init);
      DriveStaysDisarmed(before, t);
      DrivenGate(d, deep, init);
      DrivenStep(before, After(Arm(d.gate, deep), EventsOf(init)), t);
      OneMoreEvent(Arm(d.gate, deep), EventsOf(init), t);
      hide After, Drive, Next, EventOf, Arm;
    }
  }

  // Exactly when the armed driver acts: the same player is still there, the tick delivers a reading, and with
  // it the last ten events since the arm agree, unbroken, on the side the player is not on and may not be on.
  lemma DriverActsIff(d: Driver, deep: bool, ticks: seq<Tick>, t: Tick)
    requires d.gate == Arm(d.gate, deep) && !DriveAll(d, ticks).gate.mode.Disarmed?
    ensures var action, side := Drive(DriveAll(d, ticks), t).1, InWater(deep, EventsOf(ticks));
            var live := t.player == d.lastPlayer && Reads(t);
            && (action == FallIn <==> live && !side && LastTenSay(EventsOf(ticks + [t]), true) && t.swimBlocked)
            && (action == Emerge <==> live && side && LastTenSay(EventsOf(ticks + [t]), false) && t.burrowBlocked)
  {
    assert (ticks + [t])[..|ticks|] == ticks;
    WhileArmed(d, deep, ticks);
    if t.player == d.lastPlayer && Reads(t) {
      var events, e := EventsOf(ticks), EventOf(t)[0];
      DrivenGate(d, deep, ticks);
      ActsIff(d.gate, deep, events, e);
      ActionIgnoresOut(After(Arm(d.gate, deep), events), e, DriveAll(d, ticks).gate.notBurrowing);
      hide After, InWater, LastTenSay;
    }
  }

  lemma ActionIgnoresOut(g: Gate, e: Event, out: nat)
    requires e.Reading?
    ensures Observed(g.(notBurrowing := out), e.deep, e.burrowBlocked, e.swimBlocked).1 ==
            Observed(g, e.deep, e.burrowBlocked, e.swimBlocked).1
  {
  }

  // Exactly when the arm survives one more tick.
  lemma StaysArmedIff(d: Driver, deep: bool, ticks: seq<Tick>, t: Tick)
    requires d.gate == Arm(d.gate, deep) && !DriveAll(d, ticks).gate.mode.Disarmed?
    ensures !DriveAll(d, ticks + [t]).gate.mode.Disarmed? <==>
            && t.player == d.lastPlayer != 0
            && OutInARow(ticks + [t]) < BURROW_GRACE
            && Drive(DriveAll(d, ticks), t).1 == NoAction
  {
    assert (ticks + [t])[..|ticks|] == ticks;
    WhileArmed(d, deep, ticks);
    assert ticks[..|ticks|] == ticks && OutInARow(ticks[..|ticks|]) < BURROW_GRACE;
    hide DriveAll;
  }

  class AbilityHooks {
    const burrow: BurrowBoundaryGate
    var lastPlayer: int

    ghost function View(): Driver
      reads this, burrow
    {
      Driver(burrow.View(), lastPlayer)
    }

    constructor ()
      ensures View() == Driver(Gate(Disarmed, false, 0, 0), 0) && fresh(burrow)
    {
      burrow := new BurrowBoundaryGate();
      lastPlayer := 0;
    }

    method EnforceBurrowTick(t: Tick) returns (action: Action)
      modifies this, burrow
      ensures (View(), action) == Drive(old(View()), t)
    {
      if t.player == 0 || t.player != lastPlayer {
        lastPlayer := t.player;
        burrow.DisarmGate();
        return NoAction;
      }
      if t.paused {
        return NoAction;
      }
      burrow.NoteBurrowing(t.burrowing);
      if !t.burrowing || !t.enforce || burrow.mode.Disarmed? {
        return NoAction;
      }
      if t.water < 0 {
        burrow.NoteUnavailable();
        return NoAction;
      }
      action := burrow.Observe(t.water == 1, t.burrowBlocked, t.swimBlocked);
    }

    method OnWorldDestroy()
      modifies this, burrow
      ensures View() == Driver(Disarm(old(burrow.View())), 0)
    {
      burrow.DisarmGate();
      lastPlayer := 0;
    }
  }
}
