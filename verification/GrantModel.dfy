/**
  Inbound grants, as values: the receipt stream, the queue of accepted grants, the in-flight set and
  the durable ledger of one save. The classes in GrantPipeline.dfy are proved against these functions;
  the run-level results are in GrantRuns.dfy.
 */
module GrantModel {

  // A grant nobody keeps books on (dev console); never acknowledged.
  const NO_RECEIPT: int := -0x8000_0000
  const ITEM_TYPE_COUNT: int := 195
  const UNIVERSAL_KEAR: int := 63
  const FISHING_ROD_ID: int := 1009
  const MAP_ID: int := 1010

  datatype Receipt = Receipt(itemId: int, index: int)
  datatype PendingGrant = PendingGrant(itemType: int, receipt: int)
  datatype TrapArm = Armed | NotReady | Unavailable | Skipped

  // The three kinds of progressive chain: the Nth receipt of a chain hands out its tier N.
  datatype Chain = Weapon(family: int) | FishingRod | Map
  datatype Option<+T> = None | Some(value: T)

  // What one pass over the receipt stream owes a receipt that is not handled yet.
  datatype Duty =
    | CreditKear
    | Offer(itemType: int)
    | Consume
    | RunTrap(modifierIndex: int)
    | Ignore

  // What the outside world answers while the pass looks at stream position i.
  datatype Env = Env(vanillaKear: bool, credit: nat -> bool, ready: nat -> bool, trap: nat -> TrapArm)

  // `granted` is what the save stores; the other three say why each receipt is in it.
  datatype Save = Save(granted: set<int>, loaded: set<int>, applied: seq<PendingGrant>, consumed: set<int>)

  datatype Core = Core(queue: seq<PendingGrant>, inFlight: set<int>, save: Save)

  function ChainOf(itemId: int): Option<Chain> {
    if itemId == FISHING_ROD_ID then Some(FishingRod)
    else if 1000 <= itemId < 1005 then Some(Weapon(itemId - 1000))
    else if itemId == MAP_ID then Some(Map)
    else None
  }

  function TierType(chain: Chain, tier: int): int {
    match chain
    case Weapon(family) => if 0 <= family < 5 && 1 <= tier <= 3 then 2 + 3 * family + (tier - 1) else -1
    case FishingRod => if 1 <= tier <= 3 then 86 + tier else -1
    case Map => if 1 <= tier <= 2 then 74 + tier else -1
  }

  predicate IsTrapItem(itemId: int) { 5000 <= itemId < 6000 }

  predicate IsCapacityUpgrade(itemId: int) { 68 <= itemId < 73 }

  predicate IsPlainItem(itemId: int) { 0 <= itemId < 1000 && !IsCapacityUpgrade(itemId) }

  predicate IsGameType(itemType: int) { 0 < itemType < ITEM_TYPE_COUNT }

  // How many receipts of the chain the stream holds in its first n positions.
  function CountChain(stream: seq<Receipt>, n: nat, chain: Chain): nat
    requires n <= |stream|
  {
    if n == 0 then 0
    else CountChain(stream, n - 1, chain) + (if ChainOf(stream[n - 1].itemId) == Some(chain) then 1 else 0)
  }

  // The item type position i stands for. A function of the stream alone: nothing granted, queued or
  // in flight enters into it.
  function OfferedType(stream: seq<Receipt>, i: nat): int
    requires i < |stream|
  {
    match ChainOf(stream[i].itemId)
    case Some(chain) => TierType(chain, CountChain(stream, i + 1, chain))
    case None => stream[i].itemId
  }

  function DutyAt(stream: seq<Receipt>, i: nat, vanillaKear: bool): Duty
    requires i < |stream|
  {
    var id := stream[i].itemId;
    if vanillaKear && id == UNIVERSAL_KEAR then CreditKear
    else if ChainOf(id).Some? then
      var itemType := OfferedType(stream, i);
      if itemType < 0 then Consume else Offer(itemType)
    else if IsTrapItem(id) then RunTrap(id - 5000)
    else if IsPlainItem(id) then Offer(OfferedType(stream, i))
    else Ignore
  }

  predicate Handled(c: Core, receipt: int) {
    receipt in c.save.granted || receipt in c.inFlight
  }

  // The applied sink: `ran` tells an item that really ran from one acknowledged without running.
  function Ack(c: Core, p: PendingGrant, ran: bool): Core {
    if p.receipt == NO_RECEIPT then c
    else
      c.(inFlight := c.inFlight - {p.receipt},
      save := c.save.(granted := c.save.granted + {p.receipt},
      applied := if ran then c.save.applied + [p] else c.save.applied,
      consumed := if ran then c.save.consumed else c.save.consumed + {p.receipt}))
  }

  function MarkConsumed(c: Core, receipt: int): Core {
    c.(save := c.save.(granted := c.save.granted + {receipt}, consumed := c.save.consumed + {receipt}))
  }

  function Grant(c: Core, p: PendingGrant, ready: bool): (Core, bool) {
    if !ready then (c, false)
    else if !IsGameType(p.itemType) then (Ack(c, p, false), true)
    else (c.(queue := c.queue + [p]), true)
  }

  function OfferTo(c: Core, p: PendingGrant, ready: bool): (Core, bool) {
    var (c', taken) := Grant(c.(inFlight := c.inFlight + {p.receipt}), p, ready);
    if taken then (c', true) else (c'.(inFlight := c'.inFlight - {p.receipt}), false)
  }

  // One iteration of the pass; the flag says the pass ends here.
  function StepAt(c: Core, stream: seq<Receipt>, i: nat, env: Env): (Core, bool)
    requires i < |stream|
  {
    var index := stream[i].index;
    var duty := DutyAt(stream, i, env.vanillaKear);
    if duty.Ignore? || Handled(c, index) then (c, false)
    else
      match duty
      case CreditKear => if env.credit(i) then (MarkConsumed(c, index), false) else (c, true)
      case Consume => (MarkConsumed(c, index), false)
      case RunTrap(_) => if env.trap(i).NotReady? then (c, false) else (MarkConsumed(c, index), false)
      case Offer(itemType) =>
        var (c', taken) := OfferTo(c, PendingGrant(itemType, index), env.ready(i));
        (c', !taken)
  }

  // The pass over the first n positions, stopping for good at the first refusal.
  function TickTo(c: Core, stream: seq<Receipt>, n: nat, env: Env): (Core, bool)
    requires n <= |stream|
  {
    if n == 0 then (c, false)
    else
      var (c', stopped) := TickTo(c, stream, n - 1, env);
      if stopped then (c', true) else StepAt(c', stream, n - 1, env)
  }

  function Tick(c: Core, stream: seq<Receipt>, env: Env): Core {
    TickTo(c, stream, |stream|, env).0
  }

  // Acknowledge the first n items of a batch, in order.
  function ApplyTo(c: Core, batch: seq<PendingGrant>, n: nat): Core
    requires n <= |batch|
  {
    if n == 0 then c else Ack(ApplyTo(c, batch, n - 1), batch[n - 1], true)
  }

  // `arrivals` is what other threads pushed while the batch was out of the queue.
  function Drain(c: Core, ready: bool, arrivals: seq<PendingGrant>): Core {
    if c.queue == [] then c
    else if !ready then c.(queue := c.queue + arrivals)
    else ApplyTo(c.(queue := arrivals), c.queue, |c.queue|)
  }

  // ---- The invariant ----

  ghost function Receipts(ps: seq<PendingGrant>): set<int> {
    set p | p in ps && p.receipt != NO_RECEIPT :: p.receipt
  }

  ghost predicate NoRepeats(ps: seq<PendingGrant>) {
    forall i, j :: 0 <= i < j < |ps| && ps[i].receipt == ps[j].receipt ==> ps[i].receipt == NO_RECEIPT
  }

  ghost predicate Loose(ps: seq<PendingGrant>) {
    forall p :: p in ps ==> p.receipt == NO_RECEIPT
  }

  // Every receipt of the save is there for exactly one reason, and ran at most once.
  ghost predicate LedgerOk(s: Save) {
    && NoRepeats(s.applied)
    && s.granted == s.loaded + Receipts(s.applied) + s.consumed
    && Receipts(s.applied) !! s.loaded
    && s.consumed !! s.loaded
    && Receipts(s.applied) !! s.consumed
  }

  ghost predicate StandsFor(stream: seq<Receipt>, p: PendingGrant) {
    exists i :: 0 <= i < |stream| && stream[i].index == p.receipt && OfferedType(stream, i) == p.itemType
  }

  ghost predicate Typed(stream: seq<Receipt>, ps: seq<PendingGrant>) {
    forall p :: p in ps && p.receipt != NO_RECEIPT ==> StandsFor(stream, p)
  }

  ghost predicate Inv(c: Core, stream: seq<Receipt>) {
    && LedgerOk(c.save)
    && NoRepeats(c.queue)
    && c.inFlight == Receipts(c.queue)
    && c.inFlight !! c.save.granted
    && Typed(stream, c.queue)
  }

  // What the receipt interface asks of its callers: no stream index is the reserved value.
  predicate StreamOk(stream: seq<Receipt>) {
    forall i :: 0 <= i < |stream| ==> stream[i].index != NO_RECEIPT
  }
}
