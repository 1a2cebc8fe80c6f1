/** What any sequence of connects, drops, timeouts, refusals and re-deliveries leaves in the event stream. */
module LinkRuns {
  import opened LinkModel

  ghost predicate Sound(l: Link) {
    Tracks(l) && (l.connected ==> !Read(l.events).ended)
  }

  ghost predicate Tracks(l: Link) {
    && (l.connected ==> l.client && !l.armed)
    && (l.armed ==> l.client)
    && Agrees(l, Read(l.events))
    && ChangesMarked(l.events)
    && AlwaysIncreasing(l.events)
  }

  // At no point does the stream list the items of a session out of order.
  ghost predicate AlwaysIncreasing(events: seq<Event>) {
    forall k :: 0 <= k <= |events| ==> Increasing(Read(events[..k]).items)
  }

  // Same session, same items so far.
  ghost predicate SameItems(l: Link, l': Link) {
    l'.cursor == l.cursor && l'.seed == l.seed && l'.slot == l.slot && Read(l'.events).items == Read(l.events).items
  }

  ghost predicate Agrees(l: Link, r: Reading) {
    && r.up == l.connected
    && (!r.ended ==> r.identity == (l.seed, l.slot))
    && Increasing(r.items)
    && l.cursor == LastIndex(r.items)
  }

  lemma PushReads(events: seq<Event>, e: Event)
    ensures Read(events + [e]) == ReadOne(Read(events), e)
  {
    assert (events + [e])[..|events|] == events;
  }

  lemma PushMarks(events: seq<Event>, e: Event)
    requires ChangesMarked(events)
    requires e.Connected? && (e.seed, e.slot) != Read(events).identity ==> Read(events).ended
    ensures ChangesMarked(events + [e])
  {
    assert (events + [e])[..|events|] == events;
    hide Read;
  }

  lemma AlwaysIncreasingSnoc(events: seq<Event>, e: Event)
    requires AlwaysIncreasing(events) && Increasing(ReadOne(Read(events), e).items)
    ensures AlwaysIncreasing(events + [e])
  {
    PushReads(events, e);
    hide Increasing, Read, ReadOne;
    var more := events + [e];
    forall k | 0 <= k <= |more| ensures Increasing(Read(more[..k]).items) {
      assert k <= |events| ==> more[..k] == events[..k];
      assert more[..|more|] == more;
    }
  }

  // A lifecycle event other than Connected takes the connected flag down with it.
  lemma DownKeeps(l: Link, e: Event, l': Link)
    requires Tracks(l) && (e.Connecting? || e.Disconnected? || e.Refused?)
    requires l' == l.(events := l.events + [e], connected := false, client := l'.client, armed := l'.armed)
    requires l'.armed ==> l'.client
    ensures Sound(l') && SameItems(l, l')
  {
    PushReads(l.events, e);
    PushMarks(l.events, e);
    AlwaysIncreasingSnoc(l.events, e);
  }

  lemma DisconnectKeeps(l: Link)
    requires Sound(l)
    ensures Sound(Disconnect(l)) && !Disconnect(l).client && SameItems(l, Disconnect(l))
  {
    if l.connected {
      DownKeeps(l, Disconnected, Disconnect(l));
    }
  }

  lemma ConnectKeeps(l: Link, complete: bool, certOk: bool, creates: bool)
    requires Sound(l)
    ensures Sound(Connect(l, complete, certOk, creates)) && SameItems(l, Connect(l, complete, certOk, creates))
  {
    DisconnectKeeps(l);
    DownKeeps(Disconnect(l), if complete && certOk && creates then Connecting else Refused,
              Connect(l, complete, certOk, creates));
  }

  lemma CatchThrowKeeps(l: Link)
    requires Tracks(l)
    ensures Sound(CatchThrow(l)) && SameItems(l, CatchThrow(l))
  {
    if l.connected {
      DownKeeps(l, Disconnected, CatchThrow(l));
    } else if l.armed {
      DownKeeps(l, Refused, CatchThrow(l));
    }
  }

  lemma TimeoutKeeps(l: Link)
    requires Sound(l)
    ensures Sound(Timeout(l)) && SameItems(l, Timeout(l))
  {
    if l.armed {
      DisconnectKeeps(l.(armed := false));
      DownKeeps(Disconnect(l.(armed := false)), Refused, Timeout(l));
    }
  }

  predicate NewIdentity(l: Link, input: Input) {
    l.client && input.SlotConnected? && !input.throws.Early? && (input.seed, input.slot) != (l.seed, l.slot)
  }

  lemma EnterSessionKeeps(l: Link, seed: string, slot: int)
    requires Sound(l)
    ensures var l' := EnterSession(l, seed, slot);
            && Tracks(l') && (l'.seed, l'.slot) == (seed, slot)
            && (if (seed, slot) != (l.seed, l.slot) then l'.cursor == -1 && Read(l'.events).items == [] else l' == l)
  {
    if (seed, slot) != (l.seed, l.slot) {
      PushReads(l.events, SessionEnded);
      PushMarks(l.events, SessionEnded);
      AlwaysIncreasingSnoc(l.events, SessionEnded);
    }
  }

  lemma ConnectedKeeps(l: Link, e: Event)
    requires Tracks(l) && l.client && !l.armed && e == Connected(l.seed, l.slot)
    ensures Sound(Push(l, e).(connected := true)) && SameItems(l, Push(l, e).(connected := true))
  {
    PushReads(l.events, e);
    PushMarks(l.events, e);
    AlwaysIncreasingSnoc(l.events, e);
    hide Read, ChangesMarked, AlwaysIncreasing, Increasing;
  }

  lemma AuthenticateKeeps(l: Link, seed: string, slot: int, throws: Throw)
    requires Sound(l) && l.client
    ensures var l' := Authenticate(l, seed, slot, throws);
            && Sound(l')
            && (if NewIdentity(l, SlotConnected(seed, slot, throws)) then l'.cursor == -1 && Read(l'.events).items == []
                else SameItems(l, l'))
  {
    hide AlwaysIncreasing, ChangesMarked, Increasing, Read, CatchThrow;
    var l0 := l.(armed := false);
    match throws {
      case Early => CatchThrowKeeps(l0);
      case Late =>
        EnterSessionKeeps(l0, seed, slot);
        CatchThrowKeeps(EnterSession(l0, seed, slot));
      case Nowhere =>
        EnterSessionKeeps(l0, seed, slot);
        ConnectedKeeps(EnterSession(l0, seed, slot), Connected(seed, slot));
    }
  }

  lemma IncreasingSnoc(items: seq<Item>, item: Item)
    requires Increasing(items) && item.index > LastIndex(items)
    ensures Increasing(items + [item])
  {
  }

  lemma {:induction false} ItemsKeep(l: Link, items: seq<Item>, n: nat)
    requires Sound(l) && n <= |items|
    ensures Sound(TakeItems(l, items, n))
    ensures TakeItems(l, items, n).(events := l.events, cursor := l.cursor) == l
  {
    if n > 0 {
      ItemsKeep(l, items, n - 1);
      var l', item := TakeItems(l, items, n - 1), items[n - 1];
      if item.index > l'.cursor {
        OneItemKeeps(l', item);
      }
    }
  }

  lemma OneItemKeeps(l: Link, item: Item)
    requires Sound(l) && item.index > l.cursor
    ensures Sound(Push(l, ItemReceived(item)).(cursor := item.index))
  {
    PushReads(l.events, ItemReceived(item));
    PushMarks(l.events, ItemReceived(item));
    IncreasingSnoc(Read(l.events).items, item);
    AlwaysIncreasingSnoc(l.events, ItemReceived(item));
  }

  lemma StepKeeps(l: Link, input: Input)
    requires Sound(l)
    ensures var l' := Step(l, input);
            && Sound(l')
            && (if NewIdentity(l, input) then l'.cursor == -1 && Read(l'.events).items == []
                else input.Items? || SameItems(l, l'))
  {
    hide Agrees, AlwaysIncreasing, ChangesMarked, Read, Handle;
    match input {
      case ConnectCmd(complete, certOk, creates) => ConnectKeeps(l, complete, certOk, creates);
      case DisconnectCmd => DisconnectKeeps(l);
      case DeadlinePassed => TimeoutKeeps(l);
      case _ =>
        if l.client {
          HandleKeeps(l, input);
        }
    }
  }

  lemma HandleKeeps(l: Link, input: Input)
    requires Sound(l) && l.client
    ensures var l' := Handle(l, input);
            && Sound(l')
            && (if NewIdentity(l, input) then l'.cursor == -1 && Read(l'.events).items == []
                else input.Items? || SameItems(l, l'))
  {
    hide Agrees, AlwaysIncreasing, ChangesMarked, Read, TakeItems, CatchThrow;
    match input {
      case SocketDropped => DownKeeps(l, Disconnected, Handle(l, input));
      case SlotConnected(seed, slot, throws) => AuthenticateKeeps(l, seed, slot, throws);
      case SlotRefused => DownKeeps(l, Refused, Handle(l, input));
      case Items(items) => ItemsKeep(l, items, |items|);
      case PollThrow => CatchThrowKeeps(l);
      case _ => UnrelatedKeeps(l);
    }
  }

  lemma UnrelatedKeeps(l: Link)
    requires Sound(l)
    ensures Sound(Push(l, Other)) && SameItems(l, Push(l, Other))
  {
    PushReads(l.events, Other);
    PushMarks(l.events, Other);
    AlwaysIncreasingSnoc(l.events, Other);
  }

  lemma {:induction false} RunIsSound(inputs: seq<Input>)
    ensures Sound(Run(inputs))
  {
    if inputs != [] {
      RunIsSound(inputs[..|inputs| - 1]);
      StepKeeps(Run(inputs[..|inputs| - 1]), inputs[|inputs| - 1]);
    }
  }

  // Between steps the connected flag is what the stream says; every change of identity is announced before
  // the connection that brings it; and while the last announced session stands, it is the link's.
  lemma ConnectedIffStreamSaysSo(inputs: seq<Input>)
    ensures var l, r := Run(inputs), Read(Run(inputs).events);
            && (l.connected <==> r.up) && ChangesMarked(l.events)
            && (l.connected ==> !r.ended) && (!r.ended ==> (l.seed, l.slot) == r.identity)
  {
    RunIsSound(inputs);
    hide ChangesMarked, AlwaysIncreasing, Increasing, Read, Run;
  }

  // ---- The game thread's own cursor ----

  // One event keeps the game thread holding what the stream lists.
  lemma GameStepSees(r: Reading, e: Event)
    requires Increasing(ReadOne(r, e).items)
    ensures Apply(Game(r.items, LastIndex(r.items)), e) ==
            var items := ReadOne(r, e).items; Game(items, LastIndex(items))
  {
    if e.ItemReceived? {
      LaterIsLarger(r.items, e.item);
    }
  }

  lemma ApplySnoc(events: seq<Event>, e: Event)
    ensures ApplyAll(events + [e]) == Apply(ApplyAll(events), e)
  {
    assert (events + [e])[..|events|] == events;
  }

  // On such a stream the game thread keeps every item event: its cursor never drops one.
  lemma {:induction false} GameSeesTheStream(events: seq<Event>, n: nat)
    requires AlwaysIncreasing(events) && n <= |events|
    ensures var items := Read(events[..n]).items; ApplyAll(events[..n]) == Game(items, LastIndex(items))
  {
    if n > 0 {
      GameSeesTheStream(events, n - 1);
      var init, e := events[..n - 1], events[n - 1];
      assert events[..n] == init + [e];
      PushReads(init, e);
      ApplySnoc(init, e);
      assert Increasing(Read(events[..n]).items);
      hide AlwaysIncreasing, Increasing, Read, ReadOne, ApplyAll, Apply, LastIndex;
      GameStepSees(Read(init), e);
    }
  }

  lemma LaterIsLarger(items: seq<Item>, item: Item)
    requires Increasing(items + [item])
    ensures item.index > LastIndex(items)
  {
    assert (items + [item])[|items|] == item;
    assert items != [] ==> (items + [item])[|items| - 1] == items[|items| - 1];
  }

  // ---- Re-delivery of the server's list ----

  // The first n entries of a server's item list, numbered from 0.
  function Numbered(list: seq<int>, n: nat): seq<Item>
    requires n <= |list|
  {
    seq(n, i requires 0 <= i < n => Item(list[i], i))
  }

  // A delivery is a stretch of the list of the session it belongs to, from 0 or from anywhere up to the
  // next item not delivered yet; re-sending everything on reconnect is the case start == 0.
  ghost predicate Delivers(lists: ((string, int)) -> seq<int>, l: Link, input: Input) {
    input.Items? && l.client ==>
      exists start: nat :: start <= l.cursor + 1 && IsStretch(lists((l.seed, l.slot)), start, input.items)
  }

  predicate IsStretch(list: seq<int>, start: nat, items: seq<Item>) {
    start + |items| <= |list| && items == Numbered(list, start + |items|)[start..]
  }

  ghost predicate Faithful(lists: ((string, int)) -> seq<int>, inputs: seq<Input>) {
    inputs == [] ||
    (Faithful(lists, inputs[..|inputs| - 1]) && Delivers(lists, Run(inputs[..|inputs| - 1]), inputs[|inputs| - 1]))
  }

  ghost predicate InOrder(lists: ((string, int)) -> seq<int>, l: Link) {
    ListsTo(lists((l.seed, l.slot)), l.cursor, Read(l.events).items)
  }

  predicate ListsTo(list: seq<int>, cursor: int, items: seq<Item>) {
    -1 <= cursor < |list| && items == Numbered(list, cursor + 1)
  }

  lemma NumberedSnoc(list: seq<int>, n: nat)
    requires n < |list|
    ensures Numbered(list, n + 1) == Numbered(list, n) + [Item(list[n], n)]
  {
  }

  lemma {:induction false} ItemsInOrder(lists: ((string, int)) -> seq<int>, l: Link,
                                        items: seq<Item>, start: nat, n: nat)
    requires n <= |items| && InOrder(lists, l)
    requires start <= l.cursor + 1 && IsStretch(lists((l.seed, l.slot)), start, items)
    ensures var l' := TakeItems(l, items, n);
            InOrder(lists, l') && l'.seed == l.seed && l'.slot == l.slot && start + n <= l'.cursor + 1
  {
    hide IsStretch, ListsTo, Read;
    if n > 0 {
      ItemsInOrder(lists, l, items, start, n - 1);
      StretchAt(lists((l.seed, l.slot)), start, items, n - 1);
      OneInOrder(lists((l.seed, l.slot)), TakeItems(l, items, n - 1), start + n - 1);
    }
  }

  lemma StretchAt(list: seq<int>, start: nat, items: seq<Item>, k: nat)
    requires IsStretch(list, start, items) && k < |items|
    ensures start + k < |list| && items[k] == Item(list[start + k], start + k)
  {
  }

  // The k-th entry of the list arrives when everything before it was seen.
  lemma OneInOrder(list: seq<int>, l: Link, k: nat)
    requires k < |list| && k <= l.cursor + 1 && ListsTo(list, l.cursor, Read(l.events).items)
    ensures var item := Item(list[k], k);
            var l' := if item.index <= l.cursor then l else Push(l, ItemReceived(item)).(cursor := item.index);
            k <= l'.cursor && ListsTo(list, l'.cursor, Read(l'.events).items)
  {
    hide Read, Numbered;
    if k > l.cursor {
      PushReads(l.events, ItemReceived(Item(list[k], k)));
      NumberedSnoc(list, k);
    }
  }

  // However often the connection drops and the server starts over, the items since the session began are
  // exactly the first cursor+1 entries of that session's list.
  lemma {:induction false} RunInOrder(lists: ((string, int)) -> seq<int>, inputs: seq<Input>)
    requires Faithful(lists, inputs)
    ensures InOrder(lists, Run(inputs))
  {
    if inputs == [] {
      assert Numbered(lists(("", -1)), 0) == [];
    } else {
      var init, input := inputs[..|inputs| - 1], inputs[|inputs| - 1];
      RunInOrder(lists, init);
      RunIsSound(init);
      StepInOrder(lists, Run(init), input);
    }
  }

  lemma StepInOrder(lists: ((string, int)) -> seq<int>, l: Link, input: Input)
    requires Sound(l) && InOrder(lists, l) && Delivers(lists, l, input)
    ensures InOrder(lists, Step(l, input))
  {
    if !input.Items? {
      StepKeeps(l, input);
      assert NewIdentity(l, input) ==> Numbered(lists((input.seed, input.slot)), 0) == [];
    } else if l.client {
      var start: nat :| start <= l.cursor + 1 && IsStretch(lists((l.seed, l.slot)), start, input.items);
      ItemsInOrder(lists, l, input.items, start, |input.items|);
    }
  }

  lemma NumberedEnd(list: seq<int>, n: int)
    requires 0 <= n <= |list|
    ensures LastIndex(Numbered(list, n)) == n - 1
  {
  }

  // End to end: once the game thread has applied the stream, it holds a prefix of the session's list,
  // each entry once and in order.
  lemma GameHoldsAPrefixOfTheList(lists: ((string, int)) -> seq<int>, inputs: seq<Input>)
    requires Faithful(lists, inputs)
    ensures var l := Run(inputs);
            -1 <= l.cursor < |lists((l.seed, l.slot))| &&
            ApplyAll(l.events) == Game(Numbered(lists((l.seed, l.slot)), l.cursor + 1), l.cursor)
  {
    hide Run, Faithful, Numbered, ApplyAll, Read, Increasing;
    RunInOrder(lists, inputs);
    RunIsSound(inputs);
    var events := Run(inputs).events;
    GameSeesTheStream(events, |events|);
    assert events[..|events|] == events;
    NumberedEnd(lists((Run(inputs).seed, Run(inputs).slot)), Run(inputs).cursor + 1);
  }

  // ---- A game thread that has taken only part of the queue ----

  // The session that the n-th event belongs to: the link's identity after the step that pushed it.
  function SessionAt(inputs: seq<Input>, n: nat): (string, int) {
    if inputs == [] then ("", -1)
    else if n <= |Run(inputs[..|inputs| - 1]).events| then SessionAt(inputs[..|inputs| - 1], n)
    else (Run(inputs).seed, Run(inputs).slot)
  }

  // What a step appends: a session can end only in the first of the events.
  ghost predicate Appends(l: Link, l': Link) {
    && l.events <= l'.events
    && (forall j :: |l.events| < j < |l'.events| ==> l'.events[j] != SessionEnded)
    && (l'.events == l.events ==> l'.seed == l.seed && l'.slot == l.slot && l'.cursor == l.cursor)
  }

  lemma {:induction false} TakeItemsAppends(l: Link, items: seq<Item>, n: nat)
    requires n <= |items|
    ensures Appends(l, TakeItems(l, items, n))
    ensures forall j :: |l.events| <= j < |TakeItems(l, items, n).events| ==>
              TakeItems(l, items, n).events[j].ItemReceived?
  {
    if n > 0 {
      TakeItemsAppends(l, items, n - 1);
    }
  }

  lemma StepAppends(l: Link, input: Input)
    ensures Appends(l, Step(l, input))
  {
    hide TakeItems;
    if input.Items? {
      TakeItemsAppends(l, input.items, |input.items|);
    } else if input.SlotConnected? && l.client {
      AuthenticateAppends(l, input.seed, input.slot, input.throws);
      hide Authenticate;
    }
  }

  lemma AuthenticateAppends(l: Link, seed: string, slot: int, throws: Throw)
    ensures Appends(l, Authenticate(l, seed, slot, throws))
  {
  }

  // Short of a session end, items are only added.
  lemma {:induction false} ItemsGrow(events: seq<Event>, n: nat)
    requires n <= |events| && forall j :: n <= j < |events| ==> events[j] != SessionEnded
    ensures Read(events[..n]).items <= Read(events).items
  {
    if n == |events| {
      assert events[..n] == events;
    } else {
      var init := events[..|events| - 1];
      ItemsGrow(init, n);
      assert init[..n] == events[..n] && events[|events| - 1] != SessionEnded;
    }
  }

  lemma {:induction false} SessionAtEnd(inputs: seq<Input>)
    ensures SessionAt(inputs, |Run(inputs).events|) == (Run(inputs).seed, Run(inputs).slot)
  {
    if inputs != [] {
      var init := inputs[..|inputs| - 1];
      SessionAtEnd(init);
      StepAppends(Run(init), inputs[|inputs| - 1]);
      hide Step;
    }
  }

  lemma PrefixIsNumbered(list: seq<int>, items: seq<Item>, n: nat)
    requires n <= |list| && items <= Numbered(list, n)
    ensures |items| <= |list| && items == Numbered(list, |items|)
  {
  }

  // However much of the queue was taken, the items since the last session boundary in it are a prefix of the
  // list of the session it breaks off in.
  lemma {:induction false} PrefixInOrder(lists: ((string, int)) -> seq<int>, inputs: seq<Input>, n: nat)
    requires Faithful(lists, inputs) && n <= |Run(inputs).events|
    ensures var items, list := Read(Run(inputs).events[..n]).items, lists(SessionAt(inputs, n));
            |items| <= |list| && items == Numbered(list, |items|)
  {
    if inputs != [] {
      var init, l := inputs[..|inputs| - 1], Run(inputs);
      StepAppends(Run(init), inputs[|inputs| - 1]);
      if n <= |Run(init).events| {
        PrefixInOrder(lists, init, n);
        assert l.events[..n] == Run(init).events[..n];
      } else {
        RunInOrder(lists, inputs);
        ItemsGrow(l.events, n);
        hide Read, Numbered, Run, Step, Faithful;
        PrefixIsNumbered(lists((l.seed, l.slot)), Read(l.events[..n]).items, l.cursor + 1);
      }
    }
  }

  // So at every moment the game thread holds a prefix of the list of the session it is in.
  lemma GameHoldsAPrefixAlways(lists: ((string, int)) -> seq<int>, inputs: seq<Input>, n: nat)
    requires Faithful(lists, inputs) && n <= |Run(inputs).events|
    ensures var items, list := ApplyAll(Run(inputs).events[..n]).received, lists(SessionAt(inputs, n));
            |items| <= |list| && items == Numbered(list, |items|)
  {
    RunIsSound(inputs);
    PrefixInOrder(lists, inputs, n);
    hide Run, Faithful, Numbered, ApplyAll, Read, Increasing, AlwaysIncreasing;
    GameSeesTheStream(Run(inputs).events, n);
  }

  // ---- When a dead attempt is reported ----

  // What was pushed since says that the attempt is over.
  predicate Reported(before: seq<Event>, after: seq<Event>)
    requires before <= after
  {
    Disconnected in after[|before|..] || Refused in after[|before|..]
  }

  // A throw out of poll() is reported exactly when the link was up, or the deadline was still armed and the
  // slot-connected handler did not raise it: that one has dropped the deadline by then, wherever it throws.
  lemma ThrowIsReportedIff(l: Link, input: Input)
    requires Sound(l) && l.client && (input.PollThrow? || (input.SlotConnected? && !input.throws.Nowhere?))
    ensures var l' := Step(l, input);
            && !l'.client && l.events <= l'.events
            && (Reported(l.events, l'.events) <==> l.connected || (l.armed && input.PollThrow?))
  {
    CatchThrowReports(l);
    CatchThrowReports(l.(armed := false));
    if input.SlotConnected? && input.throws.Late? {
      var entered := EnterSession(l.(armed := false), input.seed, input.slot);
      CatchThrowReports(entered);
      QuietFirst(l.events, entered.events, CatchThrow(entered).events);
    }
    hide CatchThrow, Reported;
  }

  lemma CatchThrowReports(l: Link)
    ensures l.events <= CatchThrow(l).events && !CatchThrow(l).client
    ensures Reported(l.events, CatchThrow(l).events) <==> l.connected || l.armed
  {
  }

  lemma QuietFirst(a: seq<Event>, b: seq<Event>, c: seq<Event>)
    requires a <= b <= c && (b == a || b == a + [SessionEnded])
    ensures Reported(a, c) <==> Reported(b, c)
  {
    assert c[|a|..] == b[|a|..] + c[|b|..];
    assert b[|a|..] == [] || b[|a|..] == [SessionEnded];
  }

  // So a first handshake whose handler throws ends without a report: no event at all, or the session end alone.
  lemma BadSlotDataIsSilent(seed: string, slot: int, throws: Throw)
    requires !throws.Nowhere?
    ensures var l := Run([ConnectCmd(true, true, true), SlotConnected(seed, slot, throws)]);
            && l.events == [Connecting] + (if throws.Late? && (seed, slot) != ("", -1) then [SessionEnded] else [])
            && !l.client && !l.connected && !l.armed
  {
    var inputs := [ConnectCmd(true, true, true), SlotConnected(seed, slot, throws)];
    assert inputs[..1] == [ConnectCmd(true, true, true)] && inputs[..1][..0] == [];
    assert Run(inputs[..1]) == Step(FRESH, inputs[0]);
  }
}
