/**
  The net thread's session bookkeeping as values: what each handler does to the link's identity, item
  cursor and connected flag, and which events it pushes, in order.
 */
module LinkModel {

  datatype Item = Item(itemId: int, index: int)

  datatype Event =
    | Connecting
    | Connected(seed: string, slot: int)
    | Disconnected
    | Refused
    | SessionEnded
    | ItemReceived(item: Item)
    | Other

  // `armed` is the connect deadline; `events` everything pushed so far.
  datatype Link = Link(
    client: bool,
    connected: bool,
    armed: bool,
    seed: string,
    slot: int,
    cursor: int,
    events: seq<Event>)

  const FRESH := Link(false, false, false, "", -1, -1, [])

  // Where the slot-connected handler throws, if it does: before it has dealt with a change of identity
  // (parsing slot_data is the first thing it does), or after.
  datatype Throw = Nowhere | Early | Late

  // One atomic step of the net thread: a command, a handler call inside poll(), or a deadline check.
  datatype Input =
    | ConnectCmd(complete: bool, certOk: bool, creates: bool)
    | DisconnectCmd
    | SocketDropped
    | SlotConnected(seed: string, slot: int, throws: Throw)
    | SlotRefused
    | Items(items: seq<Item>)
    | PollThrow
    | DeadlinePassed
    | Unrelated

  function Push(l: Link, e: Event): Link { l.(events := l.events + [e]) }

  function Disconnect(l: Link): Link {
    var l' := l.(armed := false);
    if !l.client then l'
    else
      var gone := l'.(connected := false, client := false);
      if l.connected then Push(gone, Disconnected) else gone
  }

  function Connect(l: Link, complete: bool, certOk: bool, creates: bool): Link {
    var l' := Disconnect(l);
    if !complete || !certOk || !creates then Push(l', Refused)
    else Push(l'.(client := true), Connecting).(armed := true)
  }

  // poll() threw: the catch clause around it.
  function CatchThrow(l: Link): Link {
    var l' := if l.connected then Push(l.(connected := false), Disconnected)
              else if l.armed then Push(l, Refused)
              else l;
    l'.(client := false, armed := false)
  }

  // The session boundary, if the identity changed.
  function EnterSession(l: Link, seed: string, slot: int): Link {
    if seed == l.seed && slot == l.slot then l
    else Push(l.(seed := seed, slot := slot, cursor := -1), SessionEnded)
  }

  // The handler drops the deadline before anything in it can throw.
  function Authenticate(l: Link, seed: string, slot: int, throws: Throw): Link {
    var l' := l.(armed := false);
    match throws
    case Early => CatchThrow(l')
    case Late => CatchThrow(EnterSession(l', seed, slot))
    case Nowhere => Push(EnterSession(l', seed, slot), Connected(seed, slot)).(connected := true)
  }

  function TakeItems(l: Link, items: seq<Item>, n: nat): Link
    requires n <= |items|
  {
    if n == 0 then l
    else
      var l' := TakeItems(l, items, n - 1);
      var item := items[n - 1];
      if item.index <= l'.cursor then l' else Push(l', ItemReceived(item)).(cursor := item.index)
  }

  function Timeout(l: Link): Link {
    if l.armed then Push(Disconnect(l.(armed := false)), Refused) else l
  }

  function Step(l: Link, input: Input): Link {
    match input
    case ConnectCmd(complete, certOk, creates) => Connect(l, complete, certOk, creates)
    case DisconnectCmd => Disconnect(l)
    case DeadlinePassed => Timeout(l)
    case _ => if l.client then Handle(l, input) else l
  }

  // What can only happen inside poll().
  function Handle(l: Link, input: Input): Link {
    match input
    case SocketDropped => Push(l.(connected := false, armed := false), Disconnected)
    case SlotConnected(seed, slot, throws) => Authenticate(l, seed, slot, throws)
    case SlotRefused => Push(l.(connected := false, armed := false), Refused)
    case Items(items) => TakeItems(l, items, |items|)
    case PollThrow => CatchThrow(l)
    case _ => Push(l, Other)
  }

  function Run(inputs: seq<Input>): Link {
    if inputs == [] then FRESH else Step(Run(inputs[..|inputs| - 1]), inputs[|inputs| - 1])
  }

  // ---- Reading the event stream ----

  // What the stream says, read from the start: is its last lifecycle event a Connected, who authenticated
  // last, did that session end since, and which items came since the last session boundary.
  datatype Reading = Reading(up: bool, identity: (string, int), ended: bool, items: seq<Item>)

  function ReadOne(r: Reading, e: Event): Reading {
    match e
    case Connected(seed, slot) => Reading(true, (seed, slot), false, r.items)
    case SessionEnded => r.(ended := true, items := [])
    case ItemReceived(item) => r.(items := r.items + [item])
    case Other => r
    case _ => r.(up := false)
  }

  function Read(events: seq<Event>): Reading {
    if events == [] then Reading(false, ("", -1), false, [])
    else ReadOne(Read(events[..|events| - 1]), events[|events| - 1])
  }

  // Every change of identity is announced between the connection before and the one that brings it.
  predicate ChangesMarked(events: seq<Event>) {
    events == [] ||
    var init, e := events[..|events| - 1], events[|events| - 1];
    ChangesMarked(init) && (e.Connected? && (e.seed, e.slot) != Read(init).identity ==> Read(init).ended)
  }

  predicate Increasing(items: seq<Item>) {
    && (forall i :: 0 <= i < |items| ==> items[i].index >= 0)
    && (forall i, j :: 0 <= i < j < |items| ==> items[i].index < items[j].index)
  }

  function LastIndex(items: seq<Item>): int {
    if items == [] then -1 else items[|items| - 1].index
  }

  // ---- The game thread's end of the queue ----

  datatype Game = Game(received: seq<Item>, cursor: int)

  function Apply(g: Game, e: Event): Game {
    match e
    case SessionEnded => Game([], -1)
    case ItemReceived(item) => if item.index > g.cursor then Game(g.received + [item], item.index) else g
    case _ => g
  }

  function ApplyAll(events: seq<Event>): Game {
    if events == [] then Game([], -1) else Apply(ApplyAll(events[..|events| - 1]), events[|events| - 1])
  }
}
