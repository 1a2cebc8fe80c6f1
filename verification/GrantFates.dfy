/**
  What becomes of each receipt, told by its item id and its place in the stream alone: what is handed out,
  what is recorded without running, and what is left for others.
 */
module GrantFates {
  import opened GrantModel
  import opened GrantRuns

  // The game types of each progressive chain, in tier order.
  const WEAPON_TYPES: seq<seq<int>> := [[2, 3, 4], [5, 6, 7], [8, 9, 10], [11, 12, 13], [14, 15, 16]]
  const ROD_TYPES: seq<int> := [87, 88, 89]
  const MAP_TYPES: seq<int> := [75, 76]

  function ChainTypes(id: int): seq<int> {
    if 1000 <= id < 1005 then WEAPON_TYPES[id - 1000]
    else if id == 1009 then ROD_TYPES
    else if id == 1010 then MAP_TYPES
    else []
  }

  // How many of the first n receipts have this item id.
  function CountId(stream: seq<Receipt>, n: nat, id: int): nat
    requires n <= |stream|
  {
    if n == 0 then 0 else CountId(stream, n - 1, id) + (if stream[n - 1].itemId == id then 1 else 0)
  }

  // Handed out as a game type; recorded without running; or none of this pipeline's business.
  datatype Fate = Runs(itemType: int) | Recorded | Elsewhere

  function FateOf(stream: seq<Receipt>, i: nat, vanillaKear: bool): Fate
    requires i < |stream|
  {
    var id := stream[i].itemId;
    var types, k := ChainTypes(id), CountId(stream, i + 1, id);
    if types != [] then (if 1 <= k <= |types| then Runs(types[k - 1]) else Recorded)
    else if id == 63 && vanillaKear then Recorded
    else if 68 <= id < 73 then Elsewhere
    else if 0 < id < 195 then Runs(id)
    else if 0 <= id < 1000 || 5000 <= id < 6000 then Recorded
    else Elsewhere
  }

  predicate First(stream: seq<Receipt>, i: nat) {
    i < |stream| && forall j :: 0 <= j < i ==> stream[j].index != stream[i].index
  }

  // ---- What the pass does with a fate ----

  lemma {:induction false} CountsAgree(stream: seq<Receipt>, n: nat, chain: Chain, id: int)
    requires n <= |stream| && ChainOf(id) == Some(chain)
    ensures CountChain(stream, n, chain) == CountId(stream, n, id)
  {
    if n > 0 {
      CountsAgree(stream, n - 1, chain, id);
    }
  }

  lemma {:induction false} CountIdPositive(stream: seq<Receipt>, i: nat)
    requires i < |stream|
    ensures CountId(stream, i + 1, stream[i].itemId) >= 1
  {
  }

  lemma TierTypes(chain: Chain, id: int, tier: nat)
    requires ChainOf(id) == Some(chain) && tier >= 1
    ensures TierType(chain, tier) == if tier <= |ChainTypes(id)| then ChainTypes(id)[tier - 1] else -1
    ensures ChainTypes(id) != [] && (forall k :: 0 <= k < |ChainTypes(id)| ==> 0 < ChainTypes(id)[k] < 195)
  {
    if 1000 <= id < 1005 {
      assert WEAPON_TYPES[id - 1000] == [2 + 3 * (id - 1000), 3 + 3 * (id - 1000), 4 + 3 * (id - 1000)];
    }
  }

  lemma DutyIsFate(stream: seq<Receipt>, i: nat, vanillaKear: bool)
    requires i < |stream|
    ensures var duty, id := DutyAt(stream, i, vanillaKear), stream[i].itemId;
            match FateOf(stream, i, vanillaKear)
            case Runs(itemType) => duty == Offer(itemType) && IsGameType(itemType)
            case Recorded => !duty.Ignore? && (duty.Offer? ==> !IsGameType(duty.itemType))
            case Elsewhere => duty.Ignore?
  {
    var id := stream[i].itemId;
    CountIdPositive(stream, i);
    if ChainOf(id).Some? {
      CountsAgree(stream, i + 1, ChainOf(id).value, id);
      TierTypes(ChainOf(id).value, id, CountId(stream, i + 1, id));
    }
    hide TierType, CountChain, CountId;
  }

  lemma FateStable(stream: seq<Receipt>, more: seq<Receipt>, i: nat, vanillaKear: bool)
    requires i < |stream|
    ensures FateOf(stream + more, i, vanillaKear) == FateOf(stream, i, vanillaKear)
  {
    CountIdPrefix(stream, more, i + 1, stream[i].itemId);
    assert (stream + more)[i] == stream[i];
    hide CountId;
  }

  lemma {:induction false} CountIdPrefix(stream: seq<Receipt>, more: seq<Receipt>, n: nat, id: int)
    requires n <= |stream|
    ensures CountId(stream + more, n, id) == CountId(stream, n, id)
  {
    if n > 0 {
      CountIdPrefix(stream, more, n - 1, id);
    }
  }

  // ---- The queue holds what its receipts are fated to be ----

  // In the mode without kear credits; the other mode differs for the kear alone, and never queues that.
  ghost predicate Fated(stream: seq<Receipt>, p: PendingGrant) {
    forall i: nat :: First(stream, i) && stream[i].index == p.receipt && FateOf(stream, i, false).Runs? ==>
      FateOf(stream, i, false) == Runs(p.itemType)
  }

  ghost predicate AllFated(stream: seq<Receipt>, ps: seq<PendingGrant>) {
    forall p :: p in ps && p.receipt != NO_RECEIPT ==> Fated(stream, p)
  }

  lemma StepKeepsFates(c: Core, stream: seq<Receipt>, n: nat, env: Env)
    requires n < |stream| && !TickTo(c, stream, n, env).1 && AllFated(stream, TickTo(c, stream, n, env).0.queue)
    ensures AllFated(stream, TickTo(c, stream, n + 1, env).0.queue)
  {
    var c0, c1 := TickTo(c, stream, n, env).0, TickTo(c, stream, n + 1, env).0;
    assert c1 == StepAt(c0, stream, n, env).0;
    DutyIsFate(stream, n, env.vanillaKear);
    if c1.queue != c0.queue {
      var p := c1.queue[|c0.queue|];
      assert c1.queue == c0.queue + [p] && p.receipt == stream[n].index && !Handled(c0, p.receipt);
      assert FateOf(stream, n, env.vanillaKear) == Runs(p.itemType);
      forall i: nat | First(stream, i) && stream[i].index == p.receipt && FateOf(stream, i, false).Runs?
        ensures FateOf(stream, i, false) == Runs(p.itemType)
      {
        if i < n {
          DutyIsFate(stream, i, env.vanillaKear);
          PassedMeansHandled(c, stream, n, env, i);
        }
      }
    }
  }

  lemma {:induction false} TickKeepsFates(c: Core, stream: seq<Receipt>, n: nat, env: Env)
    requires n <= |stream| && AllFated(stream, c.queue)
    ensures AllFated(stream, TickTo(c, stream, n, env).0.queue)
  {
    if n > 0 {
      TickKeepsFates(c, stream, n - 1, env);
      if !TickTo(c, stream, n - 1, env).1 {
        StepKeepsFates(c, stream, n - 1, env);
      }
      hide AllFated, StepAt;
    }
  }

  lemma DeliverKeepsFates(stream: seq<Receipt>, receipt: Receipt, ps: seq<PendingGrant>)
    requires AllFated(stream, ps) && Typed(stream, ps)
    ensures AllFated(stream + [receipt], ps)
  {
    var more := stream + [receipt];
    forall p | p in ps && p.receipt != NO_RECEIPT ensures Fated(more, p) {
      var k :| 0 <= k < |stream| && stream[k].index == p.receipt && OfferedType(stream, k) == p.itemType;
      assert Fated(stream, p);
      forall i: nat | First(more, i) && more[i].index == p.receipt && FateOf(more, i, false).Runs?
        ensures FateOf(more, i, false) == Runs(p.itemType)
      {
        assert more[k] == stream[k];
        assert i <= k && forall j :: 0 <= j <= i ==> more[j] == stream[j];
        assert First(stream, i);
        FateStable(stream, [receipt], i, false);
      }
    }
  }

  lemma CommandKeepsFates(w: Pipeline, cmd: Command)
    requires Sound(w) && Legal(cmd) && AllFated(w.stream, w.queue)
    ensures AllFated(Step(w, cmd).stream, Step(w, cmd).queue)
  {
    match cmd {
      case Deliver(receipt) => DeliverKeepsFates(w.stream, receipt, w.queue);
      case TickAll(env) =>
        if w.bound.Some? {
          TickKeepsFates(CoreOf(w), w.stream, |w.stream|, env);
        }
      case DrainAll(ready, arrivals) =>
        if w.bound.Some? {
          DrainQueue(CoreOf(w), ready, arrivals);
        }
        hide Drain;
      case _ =>
    }
    hide Fated, Tick, Drain;
  }

  lemma DrainQueue(c: Core, ready: bool, arrivals: seq<PendingGrant>)
    ensures Drain(c, ready, arrivals).queue ==
            if c.queue == [] then [] else if ready then arrivals else c.queue + arrivals
  {
    ApplyLeavesQueue(c.(queue := arrivals), c.queue, |c.queue|);
  }

  lemma {:induction false} ApplyLeavesQueue(c: Core, batch: seq<PendingGrant>, n: nat)
    requires n <= |batch|
    ensures ApplyTo(c, batch, n).queue == c.queue && ApplyTo(c, batch, n).save.consumed == c.save.consumed
  {
    if n > 0 {
      ApplyLeavesQueue(c, batch, n - 1);
    }
  }

  lemma {:induction false} RunKeepsFates(cmds: seq<Command>)
    requires Lawful(cmds)
    ensures AllFated(Run(cmds).stream, Run(cmds).queue)
  {
    if cmds != [] {
      var init := cmds[..|cmds| - 1];
      RunKeepsFates(init);
      RunIsSound(init);
      CommandKeepsFates(Run(init), cmds[|cmds| - 1]);
      hide AllFated, Step;
    }
  }

  // ---- Every fate is met ----

  lemma {:induction false} TickQueueGrows(c: Core, stream: seq<Receipt>, m: nat, n: nat, env: Env)
    requires m <= n <= |stream|
    ensures TickTo(c, stream, m, env).0.queue <= TickTo(c, stream, n, env).0.queue
    ensures TickTo(c, stream, m, env).0.save.consumed <= TickTo(c, stream, n, env).0.save.consumed
  {
    if m < n {
      TickQueueGrows(c, stream, m, n - 1, env);
    }
  }

  lemma {:induction false} NotYetHandled(c: Core, stream: seq<Receipt>, n: nat, env: Env, r: int)
    requires n <= |stream| && !Handled(c, r) && forall j :: 0 <= j < n ==> stream[j].index != r
    ensures !Handled(TickTo(c, stream, n, env).0, r)
  {
    if n > 0 {
      NotYetHandled(c, stream, n - 1, env, r);
    }
  }

  // Credits and offers go through; a trap may be unable to arm, which holds up no other receipt.
  ghost predicate Open(env: Env) {
    forall i: nat :: env.credit(i) && env.ready(i)
  }

  predicate Stalled(stream: seq<Receipt>, i: nat, env: Env)
    requires i < |stream|
  {
    5000 <= stream[i].itemId < 6000 && env.trap(i).NotReady?
  }

  lemma {:induction false} OpenTickGoesOn(c: Core, stream: seq<Receipt>, n: nat, env: Env)
    requires n <= |stream| && Open(env)
    ensures !TickTo(c, stream, n, env).1
  {
    if n > 0 {
      OpenTickGoesOn(c, stream, n - 1, env);
      assert env.credit(n - 1) && env.ready(n - 1);
    }
  }

  // An open pass meets a receipt that is not on the books at its first place in the stream.
  lemma OpenPassMeetsFate(c: Core, stream: seq<Receipt>, env: Env, i: nat)
    requires Open(env) && First(stream, i) && !Handled(c, stream[i].index) && !Stalled(stream, i, env)
    ensures var c', r := Tick(c, stream, env), stream[i].index;
            match FateOf(stream, i, env.vanillaKear)
            case Runs(itemType) => PendingGrant(itemType, r) in c'.queue
            case Recorded => r in c'.save.consumed || r == NO_RECEIPT
            case Elsewhere => true
  {
    var r, c0 := stream[i].index, TickTo(c, stream, i, env).0;
    DutyIsFate(stream, i, env.vanillaKear);
    NotYetHandled(c, stream, i, env, r);
    OpenTickGoesOn(c, stream, i, env);
    assert TickTo(c, stream, i + 1, env).0 == StepAt(c0, stream, i, env).0;
    assert env.credit(i) && env.ready(i);
    TickQueueGrows(c, stream, i + 1, |stream|, env);
    var c1 := TickTo(c, stream, i + 1, env).0;
    if FateOf(stream, i, env.vanillaKear).Runs? {
      var p := PendingGrant(FateOf(stream, i, env.vanillaKear).itemType, r);
      assert c1.queue == c0.queue + [p] && c1.queue[|c0.queue|] == p;
    }
    hide TickTo, DutyAt, FateOf;
  }

  // A ready drain runs everything queued with a receipt, after what ran before and in the order queued.
  function Booked(ps: seq<PendingGrant>): seq<PendingGrant> {
    if ps == [] then []
    else Booked(ps[..|ps| - 1]) + (if ps[|ps| - 1].receipt == NO_RECEIPT then [] else [ps[|ps| - 1]])
  }

  lemma {:induction false} BookedHas(ps: seq<PendingGrant>, p: PendingGrant)
    requires p in ps && p.receipt != NO_RECEIPT
    ensures p in Booked(ps)
  {
    if p != ps[|ps| - 1] {
      BookedHas(ps[..|ps| - 1], p);
    }
  }

  lemma {:induction false} ApplyRunsInOrder(c: Core, batch: seq<PendingGrant>, n: nat)
    requires n <= |batch|
    ensures ApplyTo(c, batch, n).save.applied == c.save.applied + Booked(batch[..n])
  {
    if n > 0 {
      ApplyRunsInOrder(c, batch, n - 1);
      assert batch[..n][..n - 1] == batch[..n - 1];
    }
  }

  lemma DrainRunsInOrder(c: Core, arrivals: seq<PendingGrant>)
    ensures Drain(c, true, arrivals).save.applied == c.save.applied + Booked(c.queue)
    ensures Drain(c, true, arrivals).save.consumed == c.save.consumed
  {
    ApplyRunsInOrder(c.(queue := arrivals), c.queue, |c.queue|);
    ApplyLeavesQueue(c.(queue := arrivals), c.queue, |c.queue|);
    assert c.queue[..|c.queue|] == c.queue;
  }

  // After any run, one open pass and one ready drain bring every receipt not on record to its fate: what is
  // to be handed out has run, as the type its item id and its place among its like call for, and what is to
  // be recorded without running is, short of a trap that cannot arm yet.
  lemma FatesAreMet(cmds: seq<Command>, env: Env, arrivals: seq<PendingGrant>, i: nat)
    requires Lawful(cmds) && Open(env) && Loose(arrivals) && Run(cmds).bound.Some?
    requires First(Run(cmds).stream, i) && !Stalled(Run(cmds).stream, i, env)
    requires var w := Run(cmds); w.stream[i].index !in w.saves[w.bound.value].granted
    ensures var w := Run(cmds);
            var r, s := w.stream[i].index, Drain(Tick(CoreOf(w), w.stream, env), true, arrivals).save;
            match FateOf(w.stream, i, env.vanillaKear)
            case Runs(itemType) => PendingGrant(itemType, r) in s.applied
            case Recorded => r in s.consumed || r in w.inFlight
            case Elsewhere => true
  {
    var w := Run(cmds);
    var c, r := CoreOf(w), w.stream[i].index;
    RunIsSound(cmds);
    RunKeepsFates(cmds);
    DrainRunsInOrder(Tick(c, w.stream, env), arrivals);
    if r in w.inFlight {
      var p :| p in w.queue && p.receipt == r && r != NO_RECEIPT;
      if FateOf(w.stream, i, env.vanillaKear).Runs? {
        assert Fated(w.stream, p);
        VanillaOnlyRecords(w.stream, i, env.vanillaKear);
        TickQueueGrows(c, w.stream, 0, |w.stream|, env);
        assert p in Tick(c, w.stream, env).queue;
        BookedHas(Tick(c, w.stream, env).queue, p);
      }
    } else {
      OpenPassMeetsFate(c, w.stream, env, i);
      if FateOf(w.stream, i, env.vanillaKear).Runs? {
        BookedHas(Tick(c, w.stream, env).queue, PendingGrant(FateOf(w.stream, i, env.vanillaKear).itemType, r));
      }
    }
    hide Tick, Drain, FateOf, Booked, AllFated, Fated;
  }

  lemma VanillaOnlyRecords(stream: seq<Receipt>, i: nat, vanillaKear: bool)
    requires i < |stream| && FateOf(stream, i, vanillaKear).Runs?
    ensures FateOf(stream, i, false) == FateOf(stream, i, vanillaKear)
  {
  }

  // ---- And nothing else happens ----

  // The four ways to be recorded without running, by item id.
  predicate RecordedByName(stream: seq<Receipt>, i: nat, env: Env) {
    i < |stream| &&
    var id := stream[i].itemId;
    || (id == 63 && env.vanillaKear && env.credit(i))
    || (ChainTypes(id) != [] && CountId(stream, i + 1, id) > |ChainTypes(id)|)
    || (5000 <= id < 6000 && !env.trap(i).NotReady?)
    || ((id == 0 || 195 <= id < 1000) && env.ready(i))
  }

  lemma {:induction false} TickRecordsByName(c: Core, stream: seq<Receipt>, n: nat, env: Env, r: int)
    requires n <= |stream| && r !in c.save.consumed && r in TickTo(c, stream, n, env).0.save.consumed
    ensures exists i: nat :: i < |stream| && stream[i].index == r && RecordedByName(stream, i, env)
  {
    var c0 := TickTo(c, stream, n - 1, env).0;
    if r in c0.save.consumed {
      TickRecordsByName(c, stream, n - 1, env, r);
    } else {
      StepRecordsByName(c0, stream, n - 1, env, r);
      assert stream[n - 1].index == r && RecordedByName(stream, n - 1, env);
    }
  }

  lemma StepRecordsByName(c: Core, stream: seq<Receipt>, k: nat, env: Env, r: int)
    requires k < |stream| && r !in c.save.consumed && r in StepAt(c, stream, k, env).0.save.consumed
    ensures stream[k].index == r && RecordedByName(stream, k, env)
  {
    var id := stream[k].itemId;
    CountIdPositive(stream, k);
    DutyIsFate(stream, k, env.vanillaKear);
    if ChainOf(id).Some? {
      CountsAgree(stream, k + 1, ChainOf(id).value, id);
      TierTypes(ChainOf(id).value, id, CountId(stream, k + 1, id));
    }
    hide TierType, CountChain, CountId;
  }

  // What a pass queues is fated to run, as the type queued.
  lemma {:induction false} TickQueuesByFate(c: Core, stream: seq<Receipt>, n: nat, env: Env, p: PendingGrant)
    requires n <= |stream| && p !in c.queue && p in TickTo(c, stream, n, env).0.queue
    ensures exists i: nat :: i < |stream| && stream[i].index == p.receipt
                             && FateOf(stream, i, env.vanillaKear) == Runs(p.itemType)
  {
    var c0 := TickTo(c, stream, n - 1, env).0;
    if p in c0.queue {
      TickQueuesByFate(c, stream, n - 1, env, p);
    } else {
      DutyIsFate(stream, n - 1, env.vanillaKear);
      assert stream[n - 1].index == p.receipt && FateOf(stream, n - 1, env.vanillaKear) == Runs(p.itemType);
    }
  }

  // Only a ready drain runs anything, and it runs exactly what is queued; only a pass records without running,
  // and only in one of the four ways.
  lemma StepTouchesByName(w: Pipeline, cmd: Command, key: int, r: int)
    requires Sound(w) && key in w.saves
    ensures var s, s' := w.saves[key], Step(w, cmd).saves[key];
            && (s'.applied == s.applied || (cmd.DrainAll? && cmd.ready && w.bound == Some(key)
                                            && s'.applied == s.applied + Booked(w.queue)))
            && (r in s'.consumed && r !in s.consumed ==>
                  cmd.TickAll? && exists i: nat :: i < |w.stream| && w.stream[i].index == r
                                                   && RecordedByName(w.stream, i, cmd.env))
  {
    match cmd {
      case TickAll(env) =>
        if w.bound == Some(key) {
          var c := Tick(CoreOf(w), w.stream, env);
          TickConsumesOnlyByName(CoreOf(w), w.stream, |w.stream|, env, r);
          if r in c.save.consumed && r !in w.saves[key].consumed {
            TickRecordsByName(CoreOf(w), w.stream, |w.stream|, env, r);
          }
        }
      case DrainAll(ready, arrivals) =>
        if w.bound == Some(key) && ready {
          DrainRunsInOrder(CoreOf(w), arrivals);
        }
      case _ =>
    }
    hide Tick, Booked, RecordedByName;
  }

  // What waits keeps its turn: short of a ready drain or a release, commands add at the back only.
  predicate Waits(cmd: Command) {
    !(cmd.DrainAll? && cmd.ready) && !cmd.ReleaseInbound? && !cmd.EndSession?
  }

  lemma {:induction false} WaitingKeepTheirTurn(cmds: seq<Command>, more: seq<Command>)
    requires forall k :: 0 <= k < |more| ==> Waits(more[k])
    ensures Run(cmds).queue <= Run(cmds + more).queue
  {
    if more == [] {
      assert cmds + more == cmds;
    } else {
      var init, cmd := more[..|more| - 1], more[|more| - 1];
      WaitingKeepTheirTurn(cmds, init);
      assert (cmds + more)[..|cmds + more| - 1] == cmds + init;
      var w := Run(cmds + init);
      assert Run(cmds + more) == Step(w, cmd);
      if cmd.TickAll? && w.bound.Some? {
        TickQueueGrows(CoreOf(w), w.stream, 0, |w.stream|, cmd.env);
      }
      hide Run;
    }
  }

  // A console grant of a type the game has joins the queue when the player is there; nothing else does.
  lemma ConsoleJoins(w: Pipeline, itemType: int, ready: bool)
    requires Bound(w)
    ensures Step(w, Console(itemType, ready)).queue ==
            w.queue + (if ready && 0 < itemType < 195 then [PendingGrant(itemType, -0x8000_0000)] else [])
  {
  }
}
