/**
  Outbound checks: the bridge that records and sends them, the once-per-connection resend gate, and what
  reaches the server on each connection. A location id is its collection slot (the location base is 0).
 */
module Outbound {

  datatype Option<+T> = None | Some(value: T)

  // The seed's location sets as the room state has them.
  datatype Rooms = Rooms(valid: set<int>, removed: set<int>)

  // One send_locations call; `bulk` tells a flush from a single check.
  datatype Msg = Msg(epoch: nat, ids: set<int>, bulk: bool)

  // What the server reported itself, and on which connection.
  datatype Report = Report(epoch: nat, id: int)

  // `epoch` numbers connections. History: `wire` is every call made; `reported` what the server reported and
  // `singles` the ids sent one by one, both since the save was attached.
  datatype Bridge = Bridge(
    save: Option<set<int>>,
    sent: set<int>,
    up: bool,
    epoch: nat,
    wire: seq<Msg>,
    reported: set<Report>,
    singles: seq<int>)

  predicate IsRemoved(rooms: Rooms, slot: int) { slot >= 0 && slot in rooms.removed }

  predicate IsApLocation(rooms: Rooms, slot: int) { slot >= 0 && (slot in rooms.valid || slot in rooms.removed) }

  function Attach(b: Bridge, stored: set<int>): Bridge {
    b.(save := Some(stored), sent := {}, reported := {}, singles := [])
  }

  function Detach(b: Bridge): Bridge {
    if b.save.None? then b else b.(save := None, sent := {}, reported := {}, singles := [])
  }

  function Collect(b: Bridge, rooms: Rooms, slot: int): Bridge {
    if !IsApLocation(rooms, slot) || IsRemoved(rooms, slot) then b
    else if (if b.save.Some? then slot in b.save.value else slot in b.sent) then b
    else
      var b' := if b.save.Some? then b.(save := Some(b.save.value + {slot})) else b.(sent := b.sent + {slot});
      if b.up then b'.(wire := b.wire + [Msg(b.epoch, {slot}, false)], singles := b.singles + [slot]) else b'
  }

  function Reconcile(b: Bridge, rooms: Rooms, slot: int): Bridge {
    if b.save.None? || !IsApLocation(rooms, slot) || IsRemoved(rooms, slot) || slot in b.save.value then b
    else b.(save := Some(b.save.value + {slot}), reported := b.reported + {Report(b.epoch, slot)})
  }

  function ToResend(b: Bridge, rooms: Rooms): set<int> {
    if b.save.Some? then set slot | slot in b.save.value && !IsRemoved(rooms, slot) else b.sent - rooms.removed
  }

  function Flush(b: Bridge, rooms: Rooms): Bridge {
    var ids := ToResend(b, rooms);
    if !b.up || ids == {} then b else b.(wire := b.wire + [Msg(b.epoch, ids, true)])
  }

  // The resend gate: fires once per connection it has seen go down in between.
  function FireGate(latched: bool, connected: bool, ready: bool): (bool, bool) {
    if !connected then (false, false)
    else if latched || !ready then (latched, false)
    else (true, true)
  }

  // ---- The game thread and the link, step by step ----

  datatype App = App(bridge: Bridge, latched: bool, rooms: Rooms)

  datatype Input =
    | CollectIn(slot: int)
    | ReconcileIn(slot: int)
    | Tick
    | EnsureInbound(stored: set<int>)
    | EndSession
    | LinkUp
    | LinkDown
    | NewRooms(rooms: Rooms)

  function Step(a: App, input: Input): App {
    var b := a.bridge;
    match input
    case CollectIn(slot) => a.(bridge := Collect(b, a.rooms, slot))
    case ReconcileIn(slot) => a.(bridge := Reconcile(b, a.rooms, slot))
    case Tick =>
      var (latched, fired) := FireGate(a.latched, b.up, b.save.Some?);
      a.(latched := latched, bridge := if fired then Flush(b, a.rooms) else b)
    case EnsureInbound(stored) => if b.save.Some? then a else a.(bridge := Attach(b, stored))
    case EndSession => a.(bridge := Detach(b), latched := false)
    case LinkUp => if b.up then a else a.(bridge := b.(up := true, epoch := b.epoch + 1))
    case LinkDown => a.(bridge := b.(up := false))
    case NewRooms(rooms) => a.(rooms := rooms)
  }

  function Run(a: App, inputs: seq<Input>): App {
    if inputs == [] then a else Step(Run(a, inputs[..|inputs| - 1]), inputs[|inputs| - 1])
  }

  const START := App(Bridge(None, {}, false, 0, [], {}, []), false, Rooms({}, {}))

  // ---- What every run keeps ----

  function SentOn(wire: seq<Msg>, epoch: nat): set<int> {
    if wire == [] then {}
    else SentOn(wire[..|wire| - 1], epoch) + (if wire[|wire| - 1].epoch == epoch then wire[|wire| - 1].ids else {})
  }

  // The ids the server reported on this connection.
  function ReportedOn(reported: set<Report>, epoch: nat): set<int> {
    set r | r in reported && r.epoch == epoch :: r.id
  }

  // Every id that ever went out, on any connection.
  function EverSent(wire: seq<Msg>): set<int> {
    if wire == [] then {} else EverSent(wire[..|wire| - 1]) + wire[|wire| - 1].ids
  }

  lemma SentSnoc(wire: seq<Msg>, m: Msg, epoch: nat)
    ensures SentOn(wire + [m], epoch) == SentOn(wire, epoch) + (if m.epoch == epoch then m.ids else {})
    ensures EverSent(wire + [m]) == EverSent(wire) + m.ids
  {
    assert (wire + [m])[..|wire|] == wire;
  }

  // Whatever one step sends, no id in it is one the seed has removed.
  lemma NothingRemovedIsSent(a: App, input: Input)
    ensures a.bridge.wire <= Step(a, input).bridge.wire
    ensures forall k :: |a.bridge.wire| <= k < |Step(a, input).bridge.wire| ==>
              var m := Step(a, input).bridge.wire[k];
              m.epoch == a.bridge.epoch && forall id :: id in m.ids ==> !IsRemoved(a.rooms, id)
  {
  }

  // The save has everything sent one by one since it was attached, and nothing was sent that way twice.
  ghost predicate SinglesOnce(b: Bridge) {
    b.save.Some? ==>
      && (forall i :: 0 <= i < |b.singles| ==> b.singles[i] in b.save.value)
      && (forall i, j :: 0 <= i < j < |b.singles| ==> b.singles[i] != b.singles[j])
  }

  lemma {:induction false} EachCheckSentOnce(inputs: seq<Input>)
    ensures SinglesOnce(Run(START, inputs).bridge)
  {
    if inputs != [] {
      EachCheckSentOnce(inputs[..|inputs| - 1]);
    }
  }

  // Every recorded check that still counts has gone out on this connection, or the server reported it there.
  ghost predicate CoversAll(a: App) {
    var b := a.bridge;
    forall id :: b.save.Some? && id in b.save.value && !(id >= 0 && id in a.rooms.removed) ==>
      id in SentOn(b.wire, b.epoch) || id in ReportedOn(b.reported, b.epoch)
  }

  // While the gate is latched and the link is up.
  ghost predicate Covered(a: App) {
    a.latched ==> a.bridge.save.Some? && (a.bridge.up ==> CoversAll(a))
  }

  // The hypothesis: between two connections some tick has seen the link down, and the seed's sets stay put.
  predicate Seen(a: App, input: Input) {
    (input.LinkUp? && !a.bridge.up ==> !a.latched) && (input.NewRooms? ==> !a.latched)
  }

  predicate AllSeen(a: App, inputs: seq<Input>) {
    inputs == [] || (AllSeen(a, inputs[..|inputs| - 1]) && Seen(Run(a, inputs[..|inputs| - 1]), inputs[|inputs| - 1]))
  }

  lemma StepCovers(a: App, input: Input)
    requires Covered(a) && Seen(a, input)
    ensures Covered(Step(a, input))
  {
    var b, b' := a.bridge, Step(a, input).bridge;
    if b'.wire != b.wire {
      var m := b'.wire[|b.wire|];
      assert b'.wire == b.wire + [m] && b'.epoch == m.epoch == b.epoch;
      SentSnoc(b.wire, m, b.epoch);
    }
    if input.ReconcileIn? {
      ReportedMore(b.reported, b.epoch, input.slot);
    }
    forall id | Step(a, input).latched && b'.up && id in b'.save.value && !(id >= 0 && id in a.rooms.removed)
      ensures id in SentOn(b'.wire, b'.epoch) || id in ReportedOn(b'.reported, b'.epoch)
    {
      if !a.latched {
        assert id in ToResend(b, a.rooms);
      } else if id in b.save.value {
        assert id in SentOn(b.wire, b.epoch) || id in ReportedOn(b.reported, b.epoch);
      }
    }
  }

  lemma ReportedMore(reported: set<Report>, epoch: nat, id: int)
    ensures ReportedOn(reported + {Report(epoch, id)}, epoch) == ReportedOn(reported, epoch) + {id}
  {
    var more := reported + {Report(epoch, id)};
    assert Report(epoch, id) in more;
    forall x | x in ReportedOn(reported, epoch) ensures x in ReportedOn(more, epoch) {
      assert Report(epoch, x) in more;
    }
  }

  lemma {:induction false} CoverageHolds(a: App, inputs: seq<Input>)
    requires Covered(a) && AllSeen(a, inputs)
    ensures Covered(Run(a, inputs))
  {
    if inputs != [] {
      CoverageHolds(a, inputs[..|inputs| - 1]);
      StepCovers(Run(a, inputs[..|inputs| - 1]), inputs[|inputs| - 1]);
    }
  }

  // A check is never stuck: once a tick has seen the link down, then whatever happens, any later tick that
  // finds the link up and a save attached leaves everything recorded covered on the connection it finds.
  lemma TickAfterDropResends(a: App, inputs: seq<Input>)
    requires !a.bridge.up && AllSeen(Step(a, Tick), inputs)
    requires var end := Run(Step(a, Tick), inputs).bridge; end.up && end.save.Some?
    ensures var a' := Step(Run(Step(a, Tick), inputs), Tick); a'.latched && a'.bridge.up && CoversAll(a')
  {
    CoverageHolds(Step(a, Tick), inputs);
    StepCovers(Run(Step(a, Tick), inputs), Tick);
    hide CoversAll, AllSeen, Run;
  }

  // Nothing in the history belongs to a connection still to come.
  ghost predicate Past(b: Bridge) {
    && (forall m :: m in b.wire ==> m.epoch <= b.epoch)
    && (forall r :: r in b.reported ==> r.epoch <= b.epoch)
  }

  lemma {:induction false} RunIsPast(inputs: seq<Input>)
    ensures Past(Run(START, inputs).bridge)
    ensures Run(START, inputs).latched ==> Run(START, inputs).bridge.save.Some?
  {
    if inputs != [] {
      RunIsPast(inputs[..|inputs| - 1]);
      var a, input := Run(START, inputs[..|inputs| - 1]), inputs[|inputs| - 1];
      NothingRemovedIsSent(a, input);
    }
  }

  // A reconnect no tick has seen, on any run: nothing is sent on the new connection by the ticks that follow,
  // because the latched gate will not fire again, so coverage survives exactly when nothing is recorded.
  lemma UnseenReconnectIff(inputs: seq<Input>, ticks: nat)
    requires var a := Run(START, inputs); a.latched && !a.bridge.up
    ensures var a := Run(START, inputs);
            var a' := Run(Step(a, LinkUp), seq(ticks, _ => Tick));
            && a'.bridge.wire == a.bridge.wire
            && (Covered(a') <==> ToResend(a.bridge, a.rooms) == {})
  {
    var a := Run(START, inputs);
    RunIsPast(inputs);
    NothingOnFutureEpochs(a.bridge.wire, a.bridge.epoch + 1);
    LatchedTicksIdle(Step(a, LinkUp), ticks);
  }

  // A run reaches one with a check recorded.
  lemma UnseenReconnectIsReachable(id: int)
    requires id >= 0
    ensures var a := Run(START, [NewRooms(Rooms({id}, {})), EnsureInbound({id}), LinkUp, Tick, LinkDown]);
            a.latched && !a.bridge.up && ToResend(a.bridge, a.rooms) == {id}
  {
    var first, second := NewRooms(Rooms({id}, {})), EnsureInbound({id});
    LinkDropsUnseen(Rooms({id}, {}), id);
    hide Step;
    RunSnoc(START, [], first);
    RunSnoc(START, [first], second);
    RunSnoc(START, [first, second], LinkUp);
    RunSnoc(START, [first, second, LinkUp], Tick);
    RunSnoc(START, [first, second, LinkUp, Tick], LinkDown);
    assert Run(START, []) == START;
    hide Run;
    assert [] + [first] == [first] && [first] + [second] == [first, second];
    assert [first, second] + [LinkUp] == [first, second, LinkUp];
    assert [first, second, LinkUp] + [Tick] == [first, second, LinkUp, Tick];
    assert [first, second, LinkUp, Tick] + [LinkDown] == [first, second, LinkUp, Tick, LinkDown];
  }

  lemma LinkDropsUnseen(rooms: Rooms, id: int)
    requires id >= 0 && rooms == Rooms({id}, {})
    ensures var a := Step(Step(Step(Step(Step(START, NewRooms(rooms)), EnsureInbound({id})), LinkUp), Tick), LinkDown);
            a.latched && !a.bridge.up && ToResend(a.bridge, a.rooms) == {id}
  {
    var a := Step(Step(Step(START, NewRooms(rooms)), EnsureInbound({id})), LinkUp);
    assert a.bridge.up && !a.latched && a.bridge.save == Some({id}) && a.rooms == rooms;
  }

  lemma {:induction false} LatchedTicksIdle(a: App, ticks: nat)
    requires a.latched && a.bridge.up
    ensures Run(a, seq(ticks, _ => Tick)) == a
  {
    if ticks > 0 {
      assert seq(ticks, _ => Tick)[..ticks - 1] == seq(ticks - 1, _ => Tick);
      LatchedTicksIdle(a, ticks - 1);
    }
  }

  lemma {:induction false} NothingOnFutureEpochs(wire: seq<Msg>, epoch: nat)
    requires forall m :: m in wire ==> m.epoch < epoch
    ensures SentOn(wire, epoch) == {}
  {
    if wire != [] {
      NothingOnFutureEpochs(wire[..|wire| - 1], epoch);
    }
  }

  // ---- Checks recorded before a save attaches ----

  // Neither collected again nor reported by the server, and no other save takes this one's place.
  predicate LeavesAlone(input: Input, id: int) {
    input != CollectIn(id) && input != ReconcileIn(id) && !input.EndSession?
  }

  // Once a save is attached, an id it does not hold goes out only when it is collected or reported again.
  lemma {:induction false} NotInSaveNeverSent(a: App, inputs: seq<Input>, id: int)
    requires a.bridge.save.Some? && id !in a.bridge.save.value && id !in EverSent(a.bridge.wire)
    requires forall k :: 0 <= k < |inputs| ==> LeavesAlone(inputs[k], id)
    ensures var b := Run(a, inputs).bridge; b.save.Some? && id !in b.save.value && id !in EverSent(b.wire)
  {
    if inputs != [] {
      var before, input := Run(a, inputs[..|inputs| - 1]), inputs[|inputs| - 1];
      NotInSaveNeverSent(a, inputs[..|inputs| - 1], id);
      var wire, wire' := before.bridge.wire, Step(before, input).bridge.wire;
      if wire' != wire {
        var m := wire'[|wire|];
        assert wire' == wire + [m] && id !in m.ids;
        SentSnoc(wire, m, 0);
      }
    }
  }

  // A check recorded in the session fallback that never went out: attaching a save leaves it some way to the
  // server, short of collecting it again, exactly when the save holds it already.
  lemma FallbackReachesServerIff(a: App, stored: set<int>, id: int)
    requires a.bridge.save.None? && id in a.bridge.sent && id !in EverSent(a.bridge.wire) && !IsRemoved(a.rooms, id)
    ensures var a' := Step(a, EnsureInbound(stored));
            id in stored <==> exists inputs ::
              (forall k :: 0 <= k < |inputs| ==> LeavesAlone(inputs[k], id)) &&
              id in EverSent(Run(a', inputs).bridge.wire)
  {
    var a' := Step(a, EnsureInbound(stored));
    if id in stored {
      var inputs := [LinkDown, Tick, LinkUp, Tick];
      ResendsAfterDrop(a', id);
      assert forall k :: 0 <= k < |inputs| ==> LeavesAlone(inputs[k], id);
    } else {
      forall inputs | forall k :: 0 <= k < |inputs| ==> LeavesAlone(inputs[k], id)
        ensures id !in EverSent(Run(a', inputs).bridge.wire)
      {
        NotInSaveNeverSent(a', inputs, id);
      }
    }
  }

  lemma RunSnoc(a: App, inputs: seq<Input>, input: Input)
    ensures Run(a, inputs + [input]) == Step(Run(a, inputs), input)
  {
    assert (inputs + [input])[..|inputs|] == inputs;
  }

  lemma ResendsAfterDrop(a: App, id: int)
    requires a.bridge.save.Some? && id in a.bridge.save.value && !IsRemoved(a.rooms, id)
    ensures id in EverSent(Run(a, [LinkDown, Tick, LinkUp, Tick]).bridge.wire)
  {
    ResendSteps(a, id);
    hide Step;
    RunSnoc(a, [], LinkDown);
    RunSnoc(a, [LinkDown], Tick);
    RunSnoc(a, [LinkDown, Tick], LinkUp);
    RunSnoc(a, [LinkDown, Tick, LinkUp], Tick);
    assert Run(a, []) == a;
    hide Run;
    assert [] + [LinkDown] == [LinkDown] && [LinkDown] + [Tick] == [LinkDown, Tick];
    assert [LinkDown, Tick] + [LinkUp] == [LinkDown, Tick, LinkUp];
    assert [LinkDown, Tick, LinkUp] + [Tick] == [LinkDown, Tick, LinkUp, Tick];
  }

  lemma ResendSteps(a: App, id: int)
    requires a.bridge.save.Some? && id in a.bridge.save.value && !IsRemoved(a.rooms, id)
    ensures id in EverSent(Step(Step(Step(Step(a, LinkDown), Tick), LinkUp), Tick).bridge.wire)
  {
    var b := Step(Step(Step(a, LinkDown), Tick), LinkUp).bridge;
    SentSnoc(b.wire, Msg(b.epoch, ToResend(b, a.rooms), true), b.epoch);
  }

  // A run reaches such a check: collected with the link down, before any save is attached.
  lemma FallbackIsReachable(id: int)
    requires id >= 0
    ensures var a := Run(START, [NewRooms(Rooms({id}, {})), CollectIn(id)]);
            a.bridge.save.None? && id in a.bridge.sent && id !in EverSent(a.bridge.wire) && !IsRemoved(a.rooms, id)
  {
    var first := NewRooms(Rooms({id}, {}));
    RunSnoc(START, [], first);
    RunSnoc(START, [first], CollectIn(id));
    assert [] + [first] == [first] && [first] + [CollectIn(id)] == [first, CollectIn(id)];
  }

  // ---- The objects ----

  method NotRemoved(rooms: Rooms, checked: set<int>) returns (ids: set<int>)
    ensures ids == set slot | slot in checked && !IsRemoved(rooms, slot)
  {
    ids := {};
    var rest := checked;
    while exists slot :: slot in rest
      invariant rest <= checked
      invariant ids == set slot | slot in checked && slot !in rest && !IsRemoved(rooms, slot)
      decreases rest
    {
      var slot :| slot in rest;
      rest := rest - {slot};
      if !IsRemoved(rooms, slot) {
        ids := ids + {slot};
      }
    }
  }

  class ApSaveState {
    var checked: set<int>

    constructor (stored: set<int>)
      ensures checked == stored
    {
      checked := stored;
    }
  }

  // The link as the game thread sees it.
  class LinkPort {
    var up: bool
    var epoch: nat
    ghost var wire: seq<Msg>

    constructor ()
      ensures !up && epoch == 0 && wire == []
    {
      up, epoch, wire := false, 0, [];
    }

    method SendLocations(ids: set<int>, ghost bulk: bool)
      modifies this`wire
      ensures wire == old(wire) + [Msg(epoch, ids, bulk)]
    {
      wire := wire + [Msg(epoch, ids, bulk)];
    }
  }

  class ConnectResendGate {
    var latched: bool

    constructor ()
      ensures !latched
    {
      latched := false;
    }

    method Fire(connected: bool, inboundReady: bool) returns (fired: bool)
      modifies this
      ensures (latched, fired) == FireGate(old(latched), connected, inboundReady)
    {
      if !connected {
        latched := false;
        return false;
      }
      if latched || !inboundReady {
        return false;
      }
      latched := true;
      return true;
    }
  }

  class RandoBridge {
    const link: LinkPort
    var save: ApSaveState?
    var sent: set<int>
    ghost var reported: set<Report>
    ghost var singles: seq<int>

    ghost function View(): Bridge
      reads this, link, save
    {
      Bridge(if save == null then None else Some(save.checked), sent, link.up, link.epoch, link.wire, reported, singles)
    }

    constructor (link: LinkPort)
      ensures this.link == link && View() == Bridge(None, {}, link.up, link.epoch, link.wire, {}, [])
    {
      this.link, save, sent, reported, singles := link, null, {}, {}, [];
    }

    method AttachSaveState(save: ApSaveState)
      modifies this
      ensures this.save == save && View() == Attach(old(View()), old(save.checked))
    {
      this.save := save;
      sent := {};
      reported, singles := {}, [];
    }

    method DetachSaveState()
      modifies this
      ensures save == null && View() == Detach(old(View()))
    {
      if save == null {
        return;
      }
      save := null;
      sent := {};
      reported, singles := {}, [];
    }

    method OnLocationCollected(rooms: Rooms, slot: int)
      modifies this`sent, this`singles, save, link`wire
      ensures save == old(save) && View() == Collect(old(View()), rooms, slot)
    {
      if !IsApLocation(rooms, slot) {
        return;
      }
      if IsRemoved(rooms, slot) {
        return;
      }
      if save != null {
        if slot in save.checked {
          return;
        }
        save.checked := save.checked + {slot};
      } else {
        if slot in sent {
          return;
        }
        sent := sent + {slot};
      }
      if link.up {
        link.SendLocations({slot}, false);
        singles := singles + [slot];
      }
    }

    method ReconcileServerChecked(rooms: Rooms, slot: int) returns (changed: bool)
      modifies this`reported, save
      ensures save == old(save) && View() == Reconcile(old(View()), rooms, slot)
      ensures changed <==> View() != old(View())
    {
      if save == null {
        return false;
      }
      if !IsApLocation(rooms, slot) {
        return false;
      }
      if IsRemoved(rooms, slot) {
        return false;
      }
      if slot in save.checked {
        return false;
      }
      save.checked := save.checked + {slot};
      reported := reported + {Report(link.epoch, slot)};
      return true;
    }

    method FlushChecked(rooms: Rooms)
      modifies link`wire
      ensures View() == Flush(old(View()), rooms)
    {
      if !link.up {
        return;
      }
      var ids := sent - rooms.removed;
      if save != null {
        ids := NotRemoved(rooms, save.checked);
      }
      if ids != {} {
        link.SendLocations(ids, true);
      }
    }
  }
}
