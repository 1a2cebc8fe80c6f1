/**
  The grant pipeline in the form the client has it: a longer-lived ItemGranter that queues and applies,
  a per-save InboundGranter that offers and keeps the books, and the GrantPipeline that owns both.
  Every method is proved against GrantModel; `View` is the value an inbound granter stands for.
 */
module GrantPipelines {
  import opened GrantModel
  import GrantRuns

  // The durable record. The three ghost fields are history: why each receipt is in `granted`.
  class ApSaveState {
    var granted: set<int>
    ghost var loaded: set<int>
    ghost var applied: seq<PendingGrant>
    ghost var consumed: set<int>

    constructor (stored: set<int>)
      ensures View() == Save(stored, stored, [], {})
    {
      granted, loaded, applied, consumed := stored, stored, [], {};
    }

    ghost function View(): Save
      reads this
    {
      Save(granted, loaded, applied, consumed)
    }
  }

  class ItemGranter {
    var pending: seq<PendingGrant>
    var sink: InboundGranter?
    // History: every item the game was asked to hand out, in order.
    ghost var ran: seq<PendingGrant>

    constructor ()
      ensures pending == [] && sink == null && ran == []
    {
      pending, sink, ran := [], null, [];
    }

    // What an acknowledgement may write: the installed sink and its save.
    ghost function SinkFrame(): set<object>
      reads this, sink
    {
      if sink == null then {} else {sink, sink.save}
    }

    ghost predicate Listening(granter: InboundGranter)
      reads this, granter
    {
      sink == granter && granter.alive && granter.granter == this
    }

    method NotifyApplied(p: PendingGrant, ghost ran: bool)
      requires sink != null ==> sink.granter == this
      modifies SinkFrame()
      ensures unchanged(this)
      ensures sink != null ==>
                && sink.alive == old(sink.alive)
                && sink.View() == (if sink.alive then Ack(old(sink.View()), p, ran) else old(sink.View()))
    {
      if p.receipt != NO_RECEIPT && sink != null {
        if sink.alive {
          sink.OnApplied(p, ran);
        }
      }
    }

    method Grant(itemType: int, receipt: int, playerReady: bool) returns (taken: bool)
      requires sink != null ==> sink.granter == this
      modifies this`pending, SinkFrame()
      ensures sink == old(sink)
      ensures sink != null ==> sink.alive == old(sink.alive)
      ensures taken == playerReady
      ensures pending ==
                if taken && IsGameType(itemType) then old(pending) + [PendingGrant(itemType, receipt)] else old(pending)
      ensures sink != null && sink.alive ==>
                (sink.View(), taken) == GrantModel.Grant(old(sink.View()), PendingGrant(itemType, receipt), playerReady)
      ensures sink != null && !sink.alive ==>
                sink.inFlight == old(sink.inFlight) && sink.save.View() == old(sink.save.View())
    {
      if !playerReady {
        return false;
      }
      if itemType <= 0 {
        NotifyApplied(PendingGrant(itemType, receipt), false);
        return true;
      }
      if !(0 <= itemType < ITEM_TYPE_COUNT) {
        NotifyApplied(PendingGrant(itemType, receipt), false);
        return true;
      }
      pending := pending + [PendingGrant(itemType, receipt)];
      return true;
    }

    method DiscardPending()
      modifies this`pending
      ensures pending == []
    {
      pending := [];
    }

    // `ready` is the resolved call, the live player and the finite cached position together; `arrivals`
    // is what other threads queue while the batch is held outside the lock.
    method Drain(ready: bool, arrivals: seq<PendingGrant>)
      requires sink != null ==> sink.granter == this
      modifies this`pending, this`ran, SinkFrame()
      ensures sink == old(sink)
      ensures sink != null ==> sink.alive == old(sink.alive)
      ensures ran == old(ran) + if ready then old(pending) else []
      ensures old(pending) != [] ==> pending == if ready then arrivals else old(pending) + arrivals
      ensures old(pending) == [] ==> pending == []
      ensures sink != null && sink.alive ==> sink.View() == GrantModel.Drain(old(sink.View()), ready, arrivals)
      ensures sink != null && !sink.alive ==>
                sink.inFlight == old(sink.inFlight) && sink.save.View() == old(sink.save.View())
    {
      if pending == [] {
        return;
      }
      var batch := pending;
      pending := [];
      pending := pending + arrivals;
      if !ready {
        pending := batch + pending;
        return;
      }
      ghost var start := if sink != null then sink.View() else Core([], {}, Save({}, {}, [], {}));
      for k := 0 to |batch|
        invariant pending == arrivals && sink == old(sink) && ran == old(ran) + batch[..k]
        invariant sink != null ==> sink.alive == old(sink.alive)
        invariant sink != null ==> sink.View() == if sink.alive then ApplyTo(start, batch, k) else start
      {
        assert batch[..k + 1] == batch[..k] + [batch[k]];
        ran := ran + [batch[k]];
        NotifyApplied(batch[k], true);
      }
      assert batch[..|batch|] == batch;
    }
  }

  class InboundGranter {
    const granter: ItemGranter
    const save: ApSaveState
    var alive: bool
    var inFlight: set<int>

    ghost function View(): Core
      reads this, granter, save
    {
      Core(granter.pending, inFlight, save.View())
    }

    constructor (granter: ItemGranter, save: ApSaveState)
      modifies granter`sink
      ensures this.granter == granter && this.save == save && granter.Listening(this)
      ensures inFlight == {} && unchanged(granter`pending) && save.View() == old(save.View())
    {
      this.granter, this.save, alive, inFlight := granter, save, true, {};
      new;
      granter.sink := this;
    }

    // Teardown disarms this granter's own sink and leaves whatever is installed in place.
    method Dispose()
      modifies this`alive
      ensures !alive
    {
      alive := false;
    }

    method OnApplied(p: PendingGrant, ghost ran: bool)
      requires p.receipt != NO_RECEIPT
      modifies this`inFlight, save
      ensures View() == Ack(old(View()), p, ran)
    {
      inFlight := inFlight - {p.receipt};
      save.granted := save.granted + {p.receipt};
      if ran {
        save.applied := save.applied + [p];
      } else {
        save.consumed := save.consumed + {p.receipt};
      }
    }

    method MarkGranted(receipt: int)
      modifies save
      ensures View() == MarkConsumed(old(View()), receipt)
    {
      save.granted := save.granted + {receipt};
      save.consumed := save.consumed + {receipt};
    }

    method Offer(itemType: int, index: int, playerReady: bool) returns (taken: bool)
      requires granter.Listening(this)
      modifies this, save, granter`pending
      ensures granter.Listening(this)
      ensures (View(), taken) == OfferTo(old(View()), PendingGrant(itemType, index), playerReady)
    {
      inFlight := inFlight + {index}; // before the call: Grant may acknowledge synchronously
      taken := granter.Grant(itemType, index, playerReady);
      if !taken {
        inFlight := inFlight - {index};
      }
    }

    // The pass keeps running tallies; the specification recounts the stream at every position.
    method Tick(stream: seq<Receipt>, env: Env)
      requires granter.Listening(this)
      modifies this, save, granter`pending
      ensures granter.Listening(this)
      ensures View() == GrantModel.Tick(old(View()), stream, env)
    {
      var weaponTally := [0, 0, 0, 0, 0];
      var fishingTier, mapTier := 0, 0;
      var i := 0;
      while i < |stream|
        invariant 0 <= i <= |stream|
        invariant granter.Listening(this)
        invariant |weaponTally| == 5 && forall f :: 0 <= f < 5 ==> weaponTally[f] == CountChain(stream, i, Weapon(f))
        invariant fishingTier == CountChain(stream, i, FishingRod)
        invariant mapTier == CountChain(stream, i, Map)
        invariant (View(), false) == TickTo(old(View()), stream, i, env)
      {
        var id, tier := stream[i].itemId, 0;
        if id == FISHING_ROD_ID {
          fishingTier := fishingTier + 1;
          tier := fishingTier;
        } else if 1000 <= id < 1005 {
          tier := weaponTally[id - 1000] + 1;
          weaponTally := weaponTally[id - 1000 := tier];
        } else if id == MAP_ID {
          mapTier := mapTier + 1;
          tier := mapTier;
        }
        var stop := TickReceipt(stream, i, env, tier);
        assert (View(), stop) == TickTo(old(View()), stream, i + 1, env);
        if stop {
          StoppedStays(old(View()), stream, i + 1, env);
          return;
        }
        i := i + 1;
      }
    }

    // One receipt of the pass; `tier` counts its chain up to and including it.
    method TickReceipt(stream: seq<Receipt>, i: nat, env: Env, tier: nat) returns (stop: bool)
      requires granter.Listening(this) && i < |stream|
      requires var chain := ChainOf(stream[i].itemId); chain.Some? ==> tier == CountChain(stream, i + 1, chain.value)
      modifies this, save, granter`pending
      ensures granter.Listening(this)
      ensures (View(), stop) == StepAt(old(View()), stream, i, env)
    {
      var id, index := stream[i].itemId, stream[i].index;
      stop := false;
      if index in save.granted || index in inFlight {
        return;
      }
      if env.vanillaKear && id == UNIVERSAL_KEAR {
        if env.credit(i) {
          MarkGranted(index);
        } else {
          stop := true;
        }
      } else if id == FISHING_ROD_ID {
        stop := OfferTier(FishingRod, tier, index, env.ready(i));
      } else if 1000 <= id < 1005 {
        stop := OfferTier(Weapon(id - 1000), tier, index, env.ready(i));
      } else if id == MAP_ID {
        stop := OfferTier(Map, tier, index, env.ready(i));
      } else if IsTrapItem(id) {
        if !env.trap(i).NotReady? {
          MarkGranted(index);
        }
      } else if IsPlainItem(id) {
        var taken := Offer(id, index, env.ready(i));
        stop := !taken;
      }
    }

    // The shared tail of the progressive segments: consume beyond the top tier, offer otherwise.
    method OfferTier(chain: Chain, tier: int, index: int, playerReady: bool) returns (stop: bool)
      requires granter.Listening(this)
      modifies this, save, granter`pending
      ensures granter.Listening(this)
      ensures var itemType := TierType(chain, tier);
              if itemType < 0 then View() == MarkConsumed(old(View()), index) && !stop
              else (View(), !stop) == OfferTo(old(View()), PendingGrant(itemType, index), playerReady)
    {
      var itemType := TierType(chain, tier);
      if itemType < 0 {
        MarkGranted(index);
        return false;
      }
      var taken := Offer(itemType, index, playerReady);
      stop := !taken;
    }
  }

  lemma {:induction false} StoppedStays(c: Core, stream: seq<Receipt>, n: nat, env: Env)
    requires n <= |stream| && TickTo(c, stream, n, env).1
    ensures Tick(c, stream, env) == TickTo(c, stream, n, env).0
  {
    for m := n to |stream|
      invariant TickTo(c, stream, m, env) == TickTo(c, stream, n, env)
    {
    }
  }

  // `key` names the save the live granter was built against; `ledgers` is history, each save's ledger as it
  // was when last released.
  class GrantPipeline {
    const granter: ItemGranter
    var inbound: InboundGranter?
    ghost var key: int
    ghost var ledgers: map<int, Save>

    // The granter only ever hears the pipeline's own inbound granter, or one already disarmed.
    ghost predicate Valid()
      reads this, granter, granter.sink, inbound
    {
      && (granter.sink != null ==> granter.sink.granter == granter)
      && (inbound != null ==> granter.Listening(inbound))
      && (inbound == null && granter.sink != null ==> !granter.sink.alive)
    }

    ghost function Saves(): map<int, Save>
      reads this, inbound, if inbound == null then {} else {inbound.save}
    {
      if inbound == null then ledgers else ledgers[key := inbound.save.View()]
    }

    // The pipeline of GrantRuns this object stands for while the receipts are `stream`.
    ghost function View(stream: seq<Receipt>): (w: GrantRuns.Pipeline)
      reads this, granter, inbound, if inbound == null then {} else {inbound.save}
      ensures GrantRuns.Bound(w)
    {
      if inbound == null then GrantRuns.Pipeline(stream, granter.pending, None, {}, Saves())
      else GrantRuns.Pipeline(stream, granter.pending, Some(key), inbound.inFlight, Saves())
    }

    constructor ()
      ensures Valid() && View([]) == GrantRuns.START && fresh(granter)
    {
      granter := new ItemGranter();
      inbound := null;
      ledgers := map[];
    }

    method ReleaseInbound(ghost stream: seq<Receipt>)
      requires Valid()
      modifies this, granter`pending, inbound
      ensures Valid() && inbound == null
      ensures View(stream) == GrantRuns.Step(old(View(stream)), GrantRuns.ReleaseInbound)
    {
      ledgers := Saves();
      granter.DiscardPending();
      if inbound != null {
        inbound.Dispose();
      }
      inbound := null;
    }

    // With no granter live this is the whole of EnsureInbound; over a live one see
    // GrantRuns.RebuildRunsTwiceIff. The save holds what was recorded under its key.
    method BuildInbound(save: ApSaveState, ghost key: int, ghost stored: set<int>, ghost stream: seq<Receipt>)
      requires Valid()
      requires save.View() == if key in Saves() then Saves()[key] else Save(stored, stored, [], {})
      modifies this, granter`sink, inbound
      ensures Valid() && inbound != null && fresh(inbound) && inbound.save == save
      ensures View(stream) == GrantRuns.BuildInbound(old(View(stream)), key, stored)
      ensures old(inbound) == null ==>
                View(stream) == GrantRuns.Step(old(View(stream)), GrantRuns.EnsureInbound(key, stored))
    {
      ledgers := Saves();
      if inbound != null {
        inbound.Dispose();
      }
      this.key := key;
      inbound := new InboundGranter(granter, save);
    }

    method Grant(itemType: int, playerReady: bool, ghost stream: seq<Receipt>) returns (taken: bool)
      requires Valid()
      modifies granter`pending, granter.SinkFrame()
      ensures Valid() && taken == playerReady
      ensures View(stream) == GrantRuns.Step(old(View(stream)), GrantRuns.Console(itemType, playerReady))
    {
      taken := granter.Grant(itemType, NO_RECEIPT, playerReady);
    }

    method Tick(stream: seq<Receipt>, env: Env)
      requires Valid()
      modifies granter`pending, granter.SinkFrame()
      ensures Valid()
      ensures View(stream) == GrantRuns.Step(old(View(stream)), GrantRuns.TickAll(env))
      ensures old(GrantRuns.Sound(View(stream))) ==> GrantRuns.Sound(View(stream))
    {
      hide GrantModel.Tick, GrantRuns.Sound;
      ghost var before := View(stream);
      if GrantRuns.Sound(before) {
        GrantRuns.StepKeepsSound(before, GrantRuns.TickAll(env));
      }
      if inbound != null {
        inbound.Tick(stream, env);
        assert ledgers[key := old(inbound.save.View())][key := inbound.save.View()] == Saves();
      }
    }

    method Drain(ready: bool, arrivals: seq<PendingGrant>, ghost stream: seq<Receipt>)
      requires Valid() && GrantRuns.Legal(GrantRuns.DrainAll(ready, arrivals))
      modifies granter`pending, granter`ran, granter.SinkFrame()
      ensures Valid() && granter.ran == old(granter.ran) + if ready then old(granter.pending) else []
      ensures View(stream) == GrantRuns.Step(old(View(stream)), GrantRuns.DrainAll(ready, arrivals))
      ensures old(GrantRuns.Sound(View(stream))) ==> GrantRuns.Sound(View(stream))
    {
      hide GrantModel.Drain, GrantRuns.Sound;
      ghost var before := View(stream);
      if GrantRuns.Sound(before) {
        GrantRuns.StepKeepsSound(before, GrantRuns.DrainAll(ready, arrivals));
      }
      granter.Drain(ready, arrivals);
      if inbound != null {
        assert ledgers[key := old(inbound.save.View())][key := inbound.save.View()] == Saves();
      }
    }
  }
}
