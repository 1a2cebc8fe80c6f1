/**
  The link and the grant pipeline together: from the server's item list, over any drops, re-deliveries and
  session changes, to the ledger of the save.
 */
module EndToEnd {
  import opened GrantModel
  import Grants = GrantRuns
  import Fates = GrantFates
  import L = LinkModel
  import LR = LinkRuns
  import LH = LinkHistory

  // The commands that carry the event stream to the pipeline; all the others may be interleaved freely.
  function Feed(cmds: seq<Grants.Command>): seq<Grants.Command> {
    if cmds == [] then []
    else
      var before, cmd := Feed(cmds[..|cmds| - 1]), cmds[|cmds| - 1];
      if cmd.Deliver? || cmd.EndSession? then before + [cmd] else before
  }

  // What the game thread makes of the events: a session end clears, an item past its cursor is delivered.
  function FeedOf(events: seq<L.Event>): seq<Grants.Command> {
    if events == [] then []
    else
      var init := events[..|events| - 1];
      match events[|events| - 1]
      case SessionEnded => FeedOf(init) + [Grants.EndSession]
      case ItemReceived(item) =>
        if item.index > L.ApplyAll(init).cursor then
          FeedOf(init) + [Grants.Deliver(Receipt(item.itemId, item.index))] else FeedOf(init)
      case _ => FeedOf(init)
  }

  function StreamStep(stream: seq<Receipt>, cmd: Grants.Command): seq<Receipt> {
    match cmd
    case Deliver(receipt) => stream + [receipt]
    case _ => []
  }

  function StreamOf(feed: seq<Grants.Command>): seq<Receipt> {
    if feed == [] then [] else StreamStep(StreamOf(feed[..|feed| - 1]), feed[|feed| - 1])
  }

  function AsReceipts(items: seq<L.Item>): seq<Receipt> {
    seq(|items|, i requires 0 <= i < |items| => Receipt(items[i].itemId, items[i].index))
  }

  lemma StreamSnoc(feed: seq<Grants.Command>, cmd: Grants.Command)
    ensures StreamOf(feed + [cmd]) == StreamStep(StreamOf(feed), cmd)
  {
    assert (feed + [cmd])[..|feed|] == feed;
  }

  // Only the feed changes the stream.
  lemma StepStream(w: Grants.Pipeline, cmd: Grants.Command)
    requires Grants.Bound(w)
    ensures Grants.Step(w, cmd).stream ==
            if cmd.Deliver? || cmd.EndSession? then StreamStep(w.stream, cmd) else w.stream
  {
    hide Tick, Drain;
  }

  lemma {:induction false} StreamFollowsFeed(cmds: seq<Grants.Command>)
    ensures Grants.Run(cmds).stream == StreamOf(Feed(cmds))
  {
    if cmds != [] {
      var init, cmd := cmds[..|cmds| - 1], cmds[|cmds| - 1];
      StreamFollowsFeed(init);
      StreamSnoc(Feed(init), cmd);
      StepStream(Grants.Run(init), cmd);
      hide Grants.Step, StreamStep, StreamOf;
    }
  }

  lemma {:induction false} FeedIsWhatTheGameHolds(events: seq<L.Event>)
    ensures StreamOf(FeedOf(events)) == AsReceipts(L.ApplyAll(events).received)
  {
    if events != [] {
      var init, e := events[..|events| - 1], events[|events| - 1];
      FeedIsWhatTheGameHolds(init);
      match e {
        case SessionEnded => StreamSnoc(FeedOf(init), Grants.EndSession);
        case ItemReceived(item) => StreamSnoc(FeedOf(init), Grants.Deliver(Receipt(item.itemId, item.index)));
        case _ =>
      }
    }
  }

  // A link run against servers with these lists, and a pipeline run fed by the first n events of it: the game
  // thread may not have taken the whole queue yet.
  ghost predicate Linked(lists: ((string, int)) -> seq<int>, inputs: seq<L.Input>, n: nat, cmds: seq<Grants.Command>) {
    && LR.Faithful(lists, inputs)
    && n <= |L.Run(inputs).events|
    && Feed(cmds) == FeedOf(L.Run(inputs).events[..n])
  }

  // These receipts are the first entries of this list, in order.
  predicate IsPrefixOf(stream: seq<Receipt>, list: seq<int>) {
    |stream| <= |list| && stream == AsReceipts(LR.Numbered(list, |stream|))
  }

  // The pipeline's stream is a prefix of the server's list for the session it is in, whatever the connection
  // did; once the queue is taken, that is the link's session and everything it has received.
  lemma StreamIsAPrefixOfTheList(lists: ((string, int)) -> seq<int>, inputs: seq<L.Input>, n: nat,
                                 cmds: seq<Grants.Command>)
    requires Linked(lists, inputs, n, cmds) && Grants.Lawful(cmds)
    ensures var l, stream := L.Run(inputs), Grants.Run(cmds).stream;
            && IsPrefixOf(stream, lists(LR.SessionAt(inputs, n)))
            && (n == |l.events| ==> LR.SessionAt(inputs, n) == (l.seed, l.slot) && |stream| == l.cursor + 1)
  {
    hide *;
    var events, id := L.Run(inputs).events, LR.SessionAt(inputs, n);
    LinkedMeans(lists, inputs, n, cmds);
    LR.GameHoldsAPrefixAlways(lists, inputs, n);
    StreamFollowsFeed(cmds);
    FeedIsWhatTheGameHolds(events[..n]);
    AsPrefix(Grants.Run(cmds).stream, L.ApplyAll(events[..n]).received, lists(id));
    if n == |events| {
      assert events[..n] == events;
      LR.SessionAtEnd(inputs);
      LR.GameHoldsAPrefixOfTheList(lists, inputs);
      NumberedLength(lists(id), L.Run(inputs).cursor + 1);
    }
  }

  lemma LinkedMeans(lists: ((string, int)) -> seq<int>, inputs: seq<L.Input>, n: nat, cmds: seq<Grants.Command>)
    requires Linked(lists, inputs, n, cmds)
    ensures LR.Faithful(lists, inputs) && n <= |L.Run(inputs).events|
    ensures Feed(cmds) == FeedOf(L.Run(inputs).events[..n])
  {
    hide LR.Faithful, L.Run, Feed, FeedOf;
  }

  lemma AsPrefix(stream: seq<Receipt>, items: seq<L.Item>, list: seq<int>)
    requires stream == AsReceipts(items) && |items| <= |list| && items == LR.Numbered(list, |items|)
    ensures IsPrefixOf(stream, list) && |stream| == |items|
  {
  }

  lemma NumberedLength(list: seq<int>, n: nat)
    requires n <= |list|
    ensures |LR.Numbered(list, n)| == n
  {
  }

  function Settled(w: Grants.Pipeline, env: Env, arrivals: seq<PendingGrant>): Save
    requires w.bound.Some? && w.bound.value in w.saves
  {
    Drain(Tick(Grants.CoreOf(w), w.stream, env), true, arrivals).save
  }

  lemma SettledIsComplete(cmds: seq<Grants.Command>, env: Env, arrivals: seq<PendingGrant>, i: nat)
    requires Grants.Lawful(cmds)
    requires Grants.Willing(env) && Loose(arrivals) && Grants.Run(cmds).bound.Some?
    ensures var w := Grants.Run(cmds);
            && LedgerOk(Settled(w, env, arrivals))
            && (i < |w.stream| && !DutyAt(w.stream, i, env.vanillaKear).Ignore? ==>
                  w.stream[i].index in Settled(w, env, arrivals).granted)
  {
    var w := Grants.Run(cmds);
    Grants.RunIsSound(cmds);
    Grants.NothingIsLost(cmds, env, arrivals, i);
    Grants.TickKeepsInv(Grants.CoreOf(w), w.stream, |w.stream|, env);
    Grants.DrainKeepsInv(Tick(Grants.CoreOf(w), w.stream, env), w.stream, true, arrivals);
    hide Tick, Drain, LedgerOk, Loose, DutyAt;
  }

  lemma PrefixAt(stream: seq<Receipt>, list: seq<int>, i: nat)
    requires IsPrefixOf(stream, list) && i < |stream|
    ensures stream[i] == Receipt(list[i], i)
  {
  }

  // Exactly once, end to end: the stream is a prefix of the server's list, and one willing pass and one
  // ready drain record every entry of it in the bound save, each for one reason only and run at most once.
  lemma ExactlyOnceEndToEnd(lists: ((string, int)) -> seq<int>, inputs: seq<L.Input>, n: nat,
                            cmds: seq<Grants.Command>, env: Env, arrivals: seq<PendingGrant>, i: nat)
    requires Linked(lists, inputs, n, cmds) && Grants.Lawful(cmds)
    requires Grants.Willing(env) && Loose(arrivals) && Grants.Run(cmds).bound.Some?
    ensures var l, w := L.Run(inputs), Grants.Run(cmds);
            && IsPrefixOf(w.stream, lists(LR.SessionAt(inputs, n)))
            && (n == |l.events| ==> LR.SessionAt(inputs, n) == (l.seed, l.slot) && |w.stream| == l.cursor + 1)
            && LedgerOk(Settled(w, env, arrivals))
            && (i < |w.stream| && !DutyAt(w.stream, i, env.vanillaKear).Ignore? ==>
                  i in Settled(w, env, arrivals).granted)
  {
    hide *;
    StreamIsAPrefixOfTheList(lists, inputs, n, cmds);
    SettledIsComplete(cmds, env, arrivals, i);
    if i < |Grants.Run(cmds).stream| {
      PrefixAt(Grants.Run(cmds).stream, lists(LR.SessionAt(inputs, n)), i);
    }
  }

  // And what it is for: every entry of the list that is to be handed out has then run, as the type its item
  // id and its place among its like in the list call for, unless it was on record before.
  lemma HandedOutEndToEnd(lists: ((string, int)) -> seq<int>, inputs: seq<L.Input>, n: nat,
                          cmds: seq<Grants.Command>, env: Env, arrivals: seq<PendingGrant>, i: nat)
    requires Linked(lists, inputs, n, cmds) && Grants.Lawful(cmds)
    requires Fates.Open(env) && Loose(arrivals) && Grants.Run(cmds).bound.Some?
    requires var w := Grants.Run(cmds); i < |w.stream| && i !in w.saves[w.bound.value].granted
    requires Fates.FateOf(Grants.Run(cmds).stream, i, env.vanillaKear).Runs?
    ensures var w, list := Grants.Run(cmds), lists(LR.SessionAt(inputs, n));
            && i < |list| && w.stream[i] == Receipt(list[i], i)
            && PendingGrant(Fates.FateOf(w.stream, i, env.vanillaKear).itemType, i) in Settled(w, env, arrivals).applied
  {
    var w := Grants.Run(cmds);
    StreamIsAPrefixOfTheList(lists, inputs, n, cmds);
    forall j | 0 <= j <= i ensures w.stream[j] == Receipt(lists(LR.SessionAt(inputs, n))[j], j) {
      PrefixAt(w.stream, lists(LR.SessionAt(inputs, n)), j);
    }
    assert Fates.First(w.stream, i);
    RunsMeansNoTrap(w.stream, i, env);
    hide Linked, IsPrefixOf, Fates.FateOf, Tick, Drain, Grants.Run, L.Run, LR.SessionAt;
    Fates.FatesAreMet(cmds, env, arrivals, i);
  }

  // So whatever a live client delivers is handed out: with the queue taken, one willing pass and one ready drain
  // later, a delivered item that is to run and was not on record has run.
  lemma DeliveredIsHandedOut(lists: ((string, int)) -> seq<int>, inputs: seq<L.Input>, items: seq<L.Item>, k: nat,
                             cmds: seq<Grants.Command>, env: Env, arrivals: seq<PendingGrant>)
    requires LH.Alive(inputs) && k < |items|
    requires var more := inputs + [L.Items(items)]; Linked(lists, more, |L.Run(more).events|, cmds)
    requires Grants.Lawful(cmds) && Fates.Open(env) && Loose(arrivals) && Grants.Run(cmds).bound.Some?
    requires var w := Grants.Run(cmds); items[k].index !in w.saves[w.bound.value].granted
    ensures var stream, i := Grants.Run(cmds).stream, items[k].index;
            && 0 <= i < |stream| && stream[i] == Receipt(items[k].itemId, i)
            && var fate := Fates.FateOf(stream, i, env.vanillaKear);
               fate.Runs? ==> PendingGrant(fate.itemType, i) in Settled(Grants.Run(cmds), env, arrivals).applied
  {
    var more, i, w := inputs + [L.Items(items)], items[k].index, Grants.Run(cmds);
    DeliveredIsInStream(lists, inputs, items, k, cmds);
    hide *;
    if Fates.FateOf(w.stream, i, env.vanillaKear).Runs? {
      HandedOutEndToEnd(lists, more, |L.Run(more).events|, cmds, env, arrivals, i);
    }
  }

  lemma DeliveredIsInStream(lists: ((string, int)) -> seq<int>, inputs: seq<L.Input>, items: seq<L.Item>, k: nat,
                            cmds: seq<Grants.Command>)
    requires LH.Alive(inputs) && k < |items| && Grants.Lawful(cmds)
    requires var more := inputs + [L.Items(items)]; Linked(lists, more, |L.Run(more).events|, cmds)
    ensures var stream, i := Grants.Run(cmds).stream, items[k].index;
            0 <= i < |stream| && stream[i] == Receipt(items[k].itemId, i)
  {
    var more := inputs + [L.Items(items)];
    LinkedMeans(lists, more, |L.Run(more).events|, cmds);
    hide *;
    StreamIsAPrefixOfTheList(lists, more, |L.Run(more).events|, cmds);
    LH.DeliveryReaches(lists, inputs, items, k);
    PrefixAt(Grants.Run(cmds).stream, lists(LR.SessionAt(more, |L.Run(more).events|)), items[k].index);
  }

  lemma RunsMeansNoTrap(stream: seq<Receipt>, i: nat, env: Env)
    requires i < |stream| && Fates.FateOf(stream, i, env.vanillaKear).Runs?
    ensures !Fates.Stalled(stream, i, env)
  {
  }
}
