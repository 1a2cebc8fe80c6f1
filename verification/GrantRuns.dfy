/** What every run of the grant pipeline keeps, and what one pass plus one drain achieves. */
module GrantRuns {
  import opened GrantModel

  // ---- One operation at a time ----

  lemma ReceiptsAppend(ps: seq<PendingGrant>, qs: seq<PendingGrant>)
    ensures Receipts(ps + qs) == Receipts(ps) + Receipts(qs)
  {
    forall r | r in Receipts(ps) + Receipts(qs) ensures r in Receipts(ps + qs) {
      var p :| (p in ps || p in qs) && p.receipt == r && r != NO_RECEIPT;
      assert p in ps + qs;
    }
  }

  lemma ReceiptsHasAll(ps: seq<PendingGrant>)
    ensures forall k :: 0 <= k < |ps| && ps[k].receipt != NO_RECEIPT ==> ps[k].receipt in Receipts(ps)
  {
  }

  lemma AckAppliedKeepsLedger(c: Core, p: PendingGrant)
    requires LedgerOk(c.save)
    requires p.receipt == NO_RECEIPT || p.receipt !in c.save.granted
    ensures LedgerOk(Ack(c, p, true).save)
  {
    if p.receipt != NO_RECEIPT {
      var s := c.save;
      ReceiptsAppend(s.applied, [p]);
      assert Receipts([p]) == {p.receipt} by { assert p in [p]; }
      ReceiptsHasAll(s.applied);
    }
  }

  lemma EnqueueKeepsInv(c: Core, stream: seq<Receipt>, p: PendingGrant)
    requires Inv(c, stream) && p.receipt != NO_RECEIPT && !Handled(c, p.receipt) && StandsFor(stream, p)
    ensures Inv(c.(queue := c.queue + [p], inFlight := c.inFlight + {p.receipt}), stream)
  {
    ReceiptsAppend(c.queue, [p]);
    assert Receipts([p]) == {p.receipt} by { assert p in [p]; }
    ReceiptsHasAll(c.queue);
  }

  lemma StepKeepsInv(c: Core, stream: seq<Receipt>, i: nat, env: Env)
    requires Inv(c, stream) && StreamOk(stream) && i < |stream|
    ensures Inv(StepAt(c, stream, i, env).0, stream)
  {
    var duty := DutyAt(stream, i, env.vanillaKear);
    var index := stream[i].index;
    if duty.Offer? && !Handled(c, index) && env.ready(i) && IsGameType(duty.itemType) {
      var p := PendingGrant(duty.itemType, index);
      assert StandsFor(stream, p) by { assert stream[i].index == p.receipt; }
      EnqueueKeepsInv(c, stream, p);
    }
  }

  lemma {:induction false} TickKeepsInv(c: Core, stream: seq<Receipt>, n: nat, env: Env)
    requires Inv(c, stream) && StreamOk(stream) && n <= |stream|
    ensures Inv(TickTo(c, stream, n, env).0, stream)
  {
    if n > 0 {
      hide Inv, StepAt;
      TickKeepsInv(c, stream, n - 1, env);
      var (c', stopped) := TickTo(c, stream, n - 1, env);
      if !stopped {
        StepKeepsInv(c', stream, n - 1, env);
      }
    }
  }

  // While a batch runs, the receipts still in flight are the ones of its unapplied rest.
  lemma {:induction false} ApplyKeepsLedger(c: Core, batch: seq<PendingGrant>, n: nat)
    requires n <= |batch| && LedgerOk(c.save) && NoRepeats(batch)
    requires c.inFlight == Receipts(batch) && c.inFlight !! c.save.granted
    ensures var c' := ApplyTo(c, batch, n);
            && LedgerOk(c'.save)
            && c'.inFlight == Receipts(batch[n..])
            && c'.inFlight !! c'.save.granted
            && c'.queue == c.queue
            && c'.save.granted == c.save.granted + Receipts(batch[..n])
  {
    if n == 0 {
      assert batch[0..] == batch;
    } else {
      ApplyKeepsLedger(c, batch, n - 1);
      var p, rest := batch[n - 1], batch[n..];
      assert batch[n - 1..] == [p] + rest && batch[..n] == batch[..n - 1] + [p];
      ReceiptsAppend(batch[..n - 1], [p]);
      ReceiptsOne(p);
      FirstApart(batch, n - 1);
      AckAppliedKeepsLedger(ApplyTo(c, batch, n - 1), p);
      hide LedgerOk, Receipts, NoRepeats;
    }
  }

  lemma ReceiptsOne(p: PendingGrant)
    ensures Receipts([p]) == if p.receipt == NO_RECEIPT then {} else {p.receipt}
  {
    assert p in [p];
  }

  lemma FirstApart(ps: seq<PendingGrant>, n: nat)
    requires n < |ps| && NoRepeats(ps)
    ensures Receipts(ps[n..]) == Receipts([ps[n]]) + Receipts(ps[n + 1..])
    ensures ps[n].receipt !in Receipts(ps[n + 1..])
  {
    assert ps[n..] == [ps[n]] + ps[n + 1..];
    ReceiptsAppend([ps[n]], ps[n + 1..]);
  }

  lemma LooseAppend(ps: seq<PendingGrant>, qs: seq<PendingGrant>)
    requires NoRepeats(ps) && Loose(qs)
    ensures NoRepeats(ps + qs) && Receipts(ps + qs) == Receipts(ps)
  {
    ReceiptsAppend(ps, qs);
    assert Receipts(qs) == {};
  }

  lemma DrainKeepsInv(c: Core, stream: seq<Receipt>, ready: bool, arrivals: seq<PendingGrant>)
    requires Inv(c, stream) && Loose(arrivals)
    ensures Inv(Drain(c, ready, arrivals), stream)
    ensures ready && c.queue != [] ==> Drain(c, ready, arrivals).save.granted == c.save.granted + Receipts(c.queue)
  {
    LooseAppend(c.queue, arrivals);
    LooseAppend([], arrivals);
    assert [] + arrivals == arrivals;
    if ready && c.queue != [] {
      ApplyKeepsLedger(c.(queue := arrivals), c.queue, |c.queue|);
      assert c.queue[..|c.queue|] == c.queue;
    }
  }

  // ---- Whole runs, over any number of sessions and saves ----

  // `bound` is the key of the save the live inbound granter was built against.
  datatype Pipeline = Pipeline(
    stream: seq<Receipt>,
    queue: seq<PendingGrant>,
    bound: Option<int>,
    inFlight: set<int>,
    saves: map<int, Save>)

  datatype Command =
    | Deliver(receipt: Receipt)
    | Console(itemType: int, playerReady: bool)
    | TickAll(env: Env)
    | DrainAll(ready: bool, arrivals: seq<PendingGrant>)
    | ReleaseInbound
    | EndSession
    | EnsureInbound(key: int, stored: set<int>)

  predicate Legal(cmd: Command) {
    match cmd
    case Deliver(receipt) => receipt.index != NO_RECEIPT
    case DrainAll(_, arrivals) => forall p :: p in arrivals ==> p.receipt == NO_RECEIPT
    case _ => true
  }

  function CoreOf(w: Pipeline): Core
    requires w.bound.Some? && w.bound.value in w.saves
  {
    Core(w.queue, w.inFlight, w.saves[w.bound.value])
  }

  function WithCore(w: Pipeline, c: Core): Pipeline
    requires w.bound.Some?
  {
    w.(queue := c.queue, inFlight := c.inFlight, saves := w.saves[w.bound.value := c.save])
  }

  // build_inbound by itself: it replaces whatever granter is live and starts an empty in-flight set.
  function BuildInbound(w: Pipeline, key: int, stored: set<int>): Pipeline {
    var save := if key in w.saves then w.saves[key] else Save(stored, stored, [], {});
    w.(bound := Some(key), inFlight := {}, saves := w.saves[key := save])
  }

  function Release(w: Pipeline): Pipeline {
    w.(queue := [], bound := None, inFlight := {})
  }

  // A live granter's save is one of the saves.
  predicate Bound(w: Pipeline) { w.bound.Some? ==> w.bound.value in w.saves }

  function Step(w: Pipeline, cmd: Command): (w': Pipeline)
    requires Bound(w)
    ensures Bound(w')
  {
    match cmd
    case Deliver(receipt) => w.(stream := w.stream + [receipt])
    case Console(itemType, ready) =>
      if ready && IsGameType(itemType) then w.(queue := w.queue + [PendingGrant(itemType, NO_RECEIPT)]) else w
    case TickAll(env) =>
      if w.bound.Some? then WithCore(w, Tick(CoreOf(w), w.stream, env)) else w
    case DrainAll(ready, arrivals) =>
      if w.bound.Some? then WithCore(w, Drain(CoreOf(w), ready, arrivals))
      else if w.queue == [] then w
      else w.(queue := if ready then arrivals else w.queue + arrivals)
    case ReleaseInbound => Release(w)
    case EndSession => Release(w).(stream := [])
    case EnsureInbound(key, stored) => if w.bound.Some? then w else BuildInbound(w, key, stored)
  }

  ghost predicate Sound(w: Pipeline) {
    && StreamOk(w.stream)
    && (forall key :: key in w.saves ==> LedgerOk(w.saves[key]))
    && (w.bound.Some? ==> w.bound.value in w.saves && Inv(CoreOf(w), w.stream))
    && (w.bound.None? ==> Loose(w.queue))
  }

  const START := Pipeline([], [], None, {}, map[])

  lemma CountChainPrefix(stream: seq<Receipt>, more: seq<Receipt>, n: nat, chain: Chain)
    requires n <= |stream|
    ensures CountChain(stream + more, n, chain) == CountChain(stream, n, chain)
  {
  }

  // Delivering more receipts never changes what an earlier one stands for.
  lemma OfferedTypeStable(stream: seq<Receipt>, more: seq<Receipt>, i: nat)
    requires i < |stream|
    ensures OfferedType(stream + more, i) == OfferedType(stream, i)
  {
    if ChainOf(stream[i].itemId).Some? {
      CountChainPrefix(stream, more, i + 1, ChainOf(stream[i].itemId).value);
    }
  }

  lemma TypedGrows(stream: seq<Receipt>, receipt: Receipt, ps: seq<PendingGrant>)
    requires Typed(stream, ps)
    ensures Typed(stream + [receipt], ps)
  {
    forall p | p in ps && p.receipt != NO_RECEIPT ensures StandsFor(stream + [receipt], p) {
      var i :| 0 <= i < |stream| && stream[i].index == p.receipt && OfferedType(stream, i) == p.itemType;
      OfferedTypeStable(stream, [receipt], i);
      assert (stream + [receipt])[i] == stream[i];
    }
  }

  lemma StepKeepsSound(w: Pipeline, cmd: Command)
    requires Sound(w) && Legal(cmd)
    ensures Sound(Step(w, cmd))
  {
    match cmd {
      case Deliver(receipt) =>
        TypedGrows(w.stream, receipt, w.queue);
      case Console(itemType, _) =>
        LooseAppend(w.queue, [PendingGrant(itemType, NO_RECEIPT)]);
      case TickAll(env) =>
        if w.bound.Some? {
          TickKeepsInv(CoreOf(w), w.stream, |w.stream|, env);
        }
      case DrainAll(ready, arrivals) =>
        if w.bound.Some? {
          DrainKeepsInv(CoreOf(w), w.stream, ready, arrivals);
        }
      case EnsureInbound(key, stored) =>
        assert w.bound.None? ==> Receipts(w.queue) == {};
      case _ =>
    }
  }

  function Run(cmds: seq<Command>): (w: Pipeline)
    ensures Bound(w)
  {
    if cmds == [] then START else Step(Run(cmds[..|cmds| - 1]), cmds[|cmds| - 1])
  }

  ghost predicate Lawful(cmds: seq<Command>) { forall k :: 0 <= k < |cmds| ==> Legal(cmds[k]) }

  lemma {:induction false} RunIsSound(cmds: seq<Command>)
    requires Lawful(cmds)
    ensures Sound(Run(cmds))
  {
    if cmds != [] {
      RunIsSound(cmds[..|cmds| - 1]);
      StepKeepsSound(Run(cmds[..|cmds| - 1]), cmds[|cmds| - 1]);
    }
  }

  // ---- Main results ----

  // After any run: the in-flight set is the duplicate-free receipt set of the queue while a granter
  // lives and nothing but console grants is queued while none does; in every save each receipt ran at
  // most once and is recorded for exactly one reason.
  lemma AtMostOncePerSave(cmds: seq<Command>, key: int, i: nat, j: nat)
    requires Lawful(cmds)
    ensures var w := Run(cmds);
            && (w.bound.Some? ==> w.inFlight == Receipts(w.queue) && NoRepeats(w.queue))
            && (w.bound.None? ==> Receipts(w.queue) == {})
            && (key in w.saves ==>
                  var s := w.saves[key];
                  && s.granted == s.loaded + Receipts(s.applied) + s.consumed
                  && Receipts(s.applied) !! s.consumed
                  && (i < j < |s.applied| ==>
                        s.applied[i].receipt != s.applied[j].receipt || s.applied[i].receipt == NO_RECEIPT))
  {
    var w := Run(cmds);
    RunIsSound(cmds);
  }

  // Whatever is queued or about to run carries the type its stream position stands for.
  lemma QueuedTypesFollowTheStream(cmds: seq<Command>, k: nat)
    requires Lawful(cmds)
    ensures var w := Run(cmds);
            k < |w.queue| && w.queue[k].receipt != NO_RECEIPT ==> StandsFor(w.stream, w.queue[k])
  {
    var w := Run(cmds);
    RunIsSound(cmds);
    if k < |w.queue| {
      assert w.queue[k] in w.queue;
    }
  }

  // A duty the pass may leave open without ending: a trap that cannot arm yet, or nothing to do.
  predicate Blocking(duty: Duty) { duty.CreditKear? || duty.Offer? || duty.Consume? }

  lemma {:induction false} TickOnlyAdds(c: Core, stream: seq<Receipt>, n: nat, env: Env, receipt: int)
    requires n <= |stream| && Handled(c, receipt)
    ensures Handled(TickTo(c, stream, n, env).0, receipt)
  {
    if n > 0 {
      TickOnlyAdds(c, stream, n - 1, env, receipt);
    }
  }

  lemma {:induction false} PassedMeansHandled(c: Core, stream: seq<Receipt>, n: nat, env: Env, i: nat)
    requires i < n <= |stream| && Blocking(DutyAt(stream, i, env.vanillaKear))
    requires !TickTo(c, stream, n, env).1
    ensures Handled(TickTo(c, stream, n, env).0, stream[i].index)
  {
    if i < n - 1 {
      PassedMeansHandled(c, stream, n - 1, env, i);
      var c' := TickTo(c, stream, n - 1, env).0;
      StepOnlyAdds(c', stream, n - 1, env, stream[i].index);
    }
  }

  lemma StepOnlyAdds(c: Core, stream: seq<Receipt>, i: nat, env: Env, receipt: int)
    requires i < |stream| && Handled(c, receipt)
    ensures Handled(StepAt(c, stream, i, env).0, receipt)
  {
    var duty := DutyAt(stream, i, env.vanillaKear);
    if duty.Offer? {
      var p := PendingGrant(duty.itemType, stream[i].index);
      assert p.receipt != receipt || Handled(c, p.receipt);
    }
  }

  // No overtaking: a receipt is newly handled by a pass only if every earlier receipt that can end the
  // pass is handled by then, so no later tier goes out after a refused one.
  lemma {:induction false} NoOvertaking(c: Core, stream: seq<Receipt>, n: nat, env: Env, i: nat, later: int)
    requires i < n <= |stream| && Blocking(DutyAt(stream, i, env.vanillaKear))
    requires !Handled(TickTo(c, stream, i + 1, env).0, later)
    requires Handled(TickTo(c, stream, n, env).0, later)
    ensures Handled(TickTo(c, stream, n, env).0, stream[i].index)
  {
    if n > i + 1 {
      var (c', stopped) := TickTo(c, stream, n - 1, env);
      if Handled(c', later) {
        NoOvertaking(c, stream, n - 1, env, i, later);
        if !stopped {
          StepOnlyAdds(c', stream, n - 1, env, stream[i].index);
        }
      } else {
        PassedMeansHandled(c, stream, n - 1, env, i);
        StepOnlyAdds(c', stream, n - 1, env, stream[i].index);
      }
    }
  }

  // A receipt can be recorded without running only in one of the four named ways.
  ghost predicate MayConsume(stream: seq<Receipt>, receipt: int, env: Env) {
    exists i :: 0 <= i < |stream| && stream[i].index == receipt &&
      match DutyAt(stream, i, env.vanillaKear)
      case CreditKear => env.credit(i)
      case Consume => true
      case RunTrap(_) => !env.trap(i).NotReady?
      case Offer(itemType) => env.ready(i) && !IsGameType(itemType)
      case Ignore => false
  }

  lemma {:induction false} TickConsumesOnlyByName(c: Core, stream: seq<Receipt>, n: nat, env: Env, receipt: int)
    requires n <= |stream| && StreamOk(stream)
    ensures var s := TickTo(c, stream, n, env).0.save;
            s.applied == c.save.applied &&
            (receipt in s.granted && receipt !in c.save.granted ==>
               receipt in s.consumed && MayConsume(stream, receipt, env))
  {
    if n > 0 {
      TickConsumesOnlyByName(c, stream, n - 1, env, receipt);
      var (c', stopped) := TickTo(c, stream, n - 1, env);
      if !stopped && receipt !in c'.save.granted && receipt in StepAt(c', stream, n - 1, env).0.save.granted {
        assert stream[n - 1].index == receipt;
      }
    }
  }

  // The world lets everything through.
  ghost predicate Willing(env: Env) {
    forall i: nat :: env.credit(i) && env.ready(i) && !env.trap(i).NotReady?
  }

  lemma {:induction false} WillingTickHandlesAll(c: Core, stream: seq<Receipt>, n: nat, env: Env, i: nat)
    requires n <= |stream| && Willing(env)
    ensures !TickTo(c, stream, n, env).1
    ensures i < n && !DutyAt(stream, i, env.vanillaKear).Ignore? ==>
              Handled(TickTo(c, stream, n, env).0, stream[i].index)
  {
    if n > 0 {
      WillingTickHandlesAll(c, stream, n - 1, env, i);
      var c' := TickTo(c, stream, n - 1, env).0;
      assert env.credit(n - 1) && env.ready(n - 1) && !env.trap(n - 1).NotReady?;
      if i < n - 1 && !DutyAt(stream, i, env.vanillaKear).Ignore? {
        StepOnlyAdds(c', stream, n - 1, env, stream[i].index);
      }
    }
  }

  // Nothing is lost: after any run at all, one willing pass and one ready drain put every receipt the
  // pipeline is responsible for into the bound save.
  lemma NothingIsLost(cmds: seq<Command>, env: Env, arrivals: seq<PendingGrant>, i: nat)
    requires Lawful(cmds)
    requires Willing(env) && Loose(arrivals) && Run(cmds).bound.Some?
    ensures var w := Run(cmds);
            var c := Drain(Tick(CoreOf(w), w.stream, env), true, arrivals);
            i < |w.stream| && !DutyAt(w.stream, i, env.vanillaKear).Ignore? ==> w.stream[i].index in c.save.granted
  {
    var w := Run(cmds);
    RunIsSound(cmds);
    var c := Tick(CoreOf(w), w.stream, env);
    TickKeepsInv(CoreOf(w), w.stream, |w.stream|, env);
    WillingTickHandlesAll(CoreOf(w), w.stream, |w.stream|, env, i);
    DrainKeepsInv(c, w.stream, true, arrivals);
  }

  // ---- Why build_inbound must wait for release_inbound ----

  // How often a receipt occurs among these grants.
  function Times(ps: seq<PendingGrant>, receipt: int): nat {
    if ps == [] then 0
    else Times(ps[..|ps| - 1], receipt) + (if ps[|ps| - 1].receipt == receipt then 1 else 0)
  }

  lemma TimesSnoc(ps: seq<PendingGrant>, p: PendingGrant, receipt: int)
    ensures Times(ps + [p], receipt) == Times(ps, receipt) + (if p.receipt == receipt then 1 else 0)
  {
    assert (ps + [p])[..|ps|] == ps;
  }

  lemma {:induction false} TimesOnce(ps: seq<PendingGrant>, receipt: int)
    requires NoRepeats(ps) && receipt != NO_RECEIPT
    ensures Times(ps, receipt) == if receipt in Receipts(ps) then 1 else 0
  {
    if ps != [] {
      var init, p := ps[..|ps| - 1], ps[|ps| - 1];
      assert ps == init + [p];
      TimesOnce(init, receipt);
      ReceiptsAppend(init, [p]);
      assert p.receipt != NO_RECEIPT ==> Receipts([p]) == {p.receipt} by { assert p in [p]; }
      assert p.receipt == NO_RECEIPT ==> Receipts([p]) == {};
      if p.receipt == receipt {
        forall i | 0 <= i < |init| ensures init[i].receipt != receipt {
          assert ps[i] == init[i];
        }
      }
      hide NoRepeats;
    }
  }

  // Position i is where the pass offers this receipt: the first of its index, with a type the game has.
  predicate OffersAt(stream: seq<Receipt>, i: nat, env: Env) {
    && i < |stream| && (forall j :: 0 <= j < i ==> stream[j].index != stream[i].index)
    && OffersHere(stream, i, env)
  }

  predicate OffersHere(stream: seq<Receipt>, k: nat, env: Env)
    requires k < |stream|
  {
    DutyAt(stream, k, env.vanillaKear).Offer? && IsGameType(DutyAt(stream, k, env.vanillaKear).itemType)
  }

  // A willing pass queues such a receipt once more, whatever the queue holds, if it is not on the books.
  lemma {:induction false} WillingTickQueues(c: Core, stream: seq<Receipt>, n: nat, env: Env, i: nat)
    requires n <= |stream| && Willing(env) && OffersAt(stream, i, env) && !Handled(c, stream[i].index)
    ensures var c', r := TickTo(c, stream, n, env).0, stream[i].index;
            && c'.save.applied == c.save.applied && r !in c'.save.granted
            && (r in c'.inFlight <==> i < n)
            && Times(c'.queue, r) == Times(c.queue, r) + (if i < n then 1 else 0)
  {
    hide StepAt, DutyAt, Times, IsGameType, Willing, OffersAt, OffersHere;
    OfferMeans(stream, i, env);
    if n > 0 {
      FirstOffer(stream, i, env, n - 1);
      WillingTickQueues(c, stream, n - 1, env, i);
      WillingTickHandlesAll(c, stream, n - 1, env, 0);
      WillingStepQueues(TickTo(c, stream, n - 1, env).0, stream, n - 1, env, stream[i].index);
    }
  }

  lemma OfferMeans(stream: seq<Receipt>, i: nat, env: Env)
    requires OffersAt(stream, i, env)
    ensures i < |stream|
  {
  }

  lemma FirstOffer(stream: seq<Receipt>, i: nat, env: Env, k: nat)
    requires OffersAt(stream, i, env) && k < |stream|
    ensures k < i ==> stream[k].index != stream[i].index
    ensures k == i ==> OffersHere(stream, k, env)
  {
  }

  lemma WillingStepQueues(c: Core, stream: seq<Receipt>, k: nat, env: Env, r: int)
    requires k < |stream| && Willing(env) && r !in c.save.granted
    requires r in c.inFlight || stream[k].index != r || OffersHere(stream, k, env)
    ensures var c', more := StepAt(c, stream, k, env).0, stream[k].index == r && r !in c.inFlight;
            && c'.save.applied == c.save.applied && r !in c'.save.granted
            && (r in c'.inFlight <==> r in c.inFlight || more)
            && Times(c'.queue, r) == Times(c.queue, r) + (if more then 1 else 0)
  {
    var duty := DutyAt(stream, k, env.vanillaKear);
    assert env.ready(k);
    if duty.Offer? {
      TimesSnoc(c.queue, PendingGrant(duty.itemType, stream[k].index), r);
    }
  }

  lemma {:induction false} ApplyTimes(c: Core, batch: seq<PendingGrant>, n: nat, r: int)
    requires n <= |batch| && r != NO_RECEIPT
    ensures Times(ApplyTo(c, batch, n).save.applied, r) == Times(c.save.applied, r) + Times(batch[..n], r)
  {
    if n > 0 {
      ApplyTimes(c, batch, n - 1, r);
      assert batch[..n] == batch[..n - 1] + [batch[n - 1]];
      TimesSnoc(batch[..n - 1], batch[n - 1], r);
      TimesSnoc(ApplyTo(c, batch, n - 1).save.applied, batch[n - 1], r);
    }
  }

  // After a rebuild on the same save, one willing pass and one ready drain run every unrecorded receipt the
  // pass offers: once if it was not queued before, and twice if it was.
  lemma RebuildRunsTwiceIff(w: Pipeline, stored: set<int>, env: Env, arrivals: seq<PendingGrant>, i: nat)
    requires Sound(w) && w.bound.Some? && Willing(env) && OffersAt(w.stream, i, env)
    requires w.stream[i].index !in CoreOf(w).save.granted
    ensures var r := w.stream[i].index;
            var c := Tick(CoreOf(BuildInbound(w, w.bound.value, stored)), w.stream, env);
            Times(Drain(c, true, arrivals).save.applied, r) == if r in Receipts(w.queue) then 2 else 1
  {
    var r := w.stream[i].index;
    var c0 := CoreOf(BuildInbound(w, w.bound.value, stored));
    assert c0 == CoreOf(w).(inFlight := {});
    WillingTickQueues(c0, w.stream, |w.stream|, env, i);
    TimesOnce(w.queue, r);
    NotRecordedNotRun(CoreOf(w).save, r);
    var c := Tick(c0, w.stream, env);
    ApplyTimes(c.(queue := arrivals), c.queue, |c.queue|, r);
    assert c.queue[..|c.queue|] == c.queue;
  }

  lemma NotRecordedNotRun(s: Save, r: int)
    requires LedgerOk(s) && r != NO_RECEIPT && r !in s.granted
    ensures Times(s.applied, r) == 0
  {
    TimesOnce(s.applied, r);
  }

  // The caller's guard is what prevents it: released first, the same steps run the receipt once.
  lemma ReleasedFirstRunsOnce(w: Pipeline, stored: set<int>, env: Env, arrivals: seq<PendingGrant>, i: nat)
    requires Sound(w) && w.bound.Some? && Willing(env) && OffersAt(w.stream, i, env)
    requires w.stream[i].index !in CoreOf(w).save.granted
    ensures var c := Tick(CoreOf(Step(Release(w), EnsureInbound(w.bound.value, stored))), w.stream, env);
            Times(Drain(c, true, arrivals).save.applied, w.stream[i].index) == 1
  {
    var w' := BuildInbound(Release(w), w.bound.value, stored);
    StepKeepsSound(w, ReleaseInbound);
    StepKeepsSound(Release(w), EnsureInbound(w.bound.value, stored));
    assert CoreOf(w') == Core([], {}, CoreOf(w).save);
    RebuildRunsTwiceIff(w', stored, env, arrivals, i);
    assert BuildInbound(w', w.bound.value, stored) == w';
  }
}
