/**
  The link in terms of its inputs alone: when it has a client, when an attempt is pending and when it is up,
  which events each input pushes, and that a delivered item stays held.
 */
module LinkHistory {
  import opened LinkModel
  import opened LinkRuns

  // A connect attempt that gets its client.
  predicate Opens(input: Input) { input.ConnectCmd? && input.complete && input.certOk && input.creates }

  // What ends a client's life at once; a passed deadline does too while no answer came.
  predicate Ends(input: Input) {
    input.ConnectCmd? || input.DisconnectCmd? || input.PollThrow? || (input.SlotConnected? && !input.throws.Nowhere?)
  }

  // The server's answer to an attempt, or a drop.
  predicate Answers(input: Input) { input.SocketDropped? || input.SlotConnected? || input.SlotRefused? }

  predicate Idle(input: Input) { input.Items? || input.Unrelated? }

  // Attempt i is pending: nothing but idle inputs since.
  ghost predicate PendingSince(inputs: seq<Input>, i: nat)
    requires i < |inputs|
  {
    Opens(inputs[i]) && forall j :: i < j < |inputs| ==> Idle(inputs[j])
  }

  ghost predicate Pending(inputs: seq<Input>) { exists i :: 0 <= i < |inputs| && PendingSince(inputs, i) }

  ghost predicate AnsweredBetween(inputs: seq<Input>, i: nat, j: nat)
    requires j <= |inputs|
  {
    exists k :: i < k < j && Answers(inputs[k])
  }

  // The client of attempt i is alive.
  ghost predicate AliveSince(inputs: seq<Input>, i: nat)
    requires i < |inputs|
  {
    && Opens(inputs[i])
    && forall j :: i < j < |inputs| ==>
         !Ends(inputs[j]) && (inputs[j].DeadlinePassed? ==> AnsweredBetween(inputs, i, j))
  }

  ghost predicate Alive(inputs: seq<Input>) { exists i :: 0 <= i < |inputs| && AliveSince(inputs, i) }

  // Input i authenticated, and nothing took the link down since.
  ghost predicate UpSince(inputs: seq<Input>, i: nat)
    requires i < |inputs|
  {
    && inputs[i].SlotConnected? && inputs[i].throws.Nowhere? && Alive(inputs[..i])
    && forall j :: i < j < |inputs| ==> Idle(inputs[j]) || inputs[j].DeadlinePassed?
  }

  ghost predicate Up(inputs: seq<Input>) { exists i :: 0 <= i < |inputs| && UpSince(inputs, i) }

  // ---- Input by input ----

  lemma PendingSnoc(pre: seq<Input>, input: Input)
    ensures Pending(pre + [input]) <==> Opens(input) || (Idle(input) && Pending(pre))
  {
    var more := pre + [input];
    assert more[|pre|] == input && forall j :: 0 <= j < |pre| ==> more[j] == pre[j];
    hide Opens, Idle;
    assert PendingSince(more, |pre|) <==> Opens(input);
    if Pending(more) {
      var i :| 0 <= i < |more| && PendingSince(more, i);
      assert i < |pre| ==> PendingSince(pre, i);
    }
    if Idle(input) && Pending(pre) {
      var i :| 0 <= i < |pre| && PendingSince(pre, i);
      assert PendingSince(more, i);
    }
  }

  // A pending attempt has no answer yet; a live client without a pending attempt has one.
  lemma AnsweredIff(inputs: seq<Input>, i: nat)
    requires i < |inputs| && AliveSince(inputs, i)
    ensures AnsweredBetween(inputs, i, |inputs|) <==> !Pending(inputs)
  {
    if Pending(inputs) {
      var m :| 0 <= m < |inputs| && PendingSince(inputs, m);
      assert m == i;
    } else {
      assert !PendingSince(inputs, i);
      var j :| i < j < |inputs| && !Idle(inputs[j]);
      if inputs[j].DeadlinePassed? {
        var k :| i < k < j && Answers(inputs[k]);
      } else {
        assert Answers(inputs[j]);
      }
    }
  }

  lemma AliveSinceSnoc(pre: seq<Input>, input: Input, i: nat)
    requires i < |pre|
    ensures AliveSince(pre + [input], i) <==>
            AliveSince(pre, i) && !Ends(input) && (input.DeadlinePassed? ==> !Pending(pre))
  {
    var more := pre + [input];
    assert more[|pre|] == input && forall j :: 0 <= j < |pre| ==> more[j] == pre[j];
    forall j: nat | j <= |pre| ensures AnsweredBetween(more, i, j) <==> AnsweredBetween(pre, i, j) {
      assert AnsweredBetween(more, i, j) <==> exists k :: i < k < j && Answers(more[k]);
    }
    if AliveSince(pre, i) {
      AnsweredIff(pre, i);
    }
    hide AnsweredBetween, Pending, Ends, Opens;
  }

  lemma AliveSnoc(pre: seq<Input>, input: Input)
    ensures Alive(pre + [input]) <==>
            Opens(input) || (Alive(pre) && !Ends(input) && (input.DeadlinePassed? ==> !Pending(pre)))
  {
    var more := pre + [input];
    forall i: nat | i < |pre|
      ensures AliveSince(more, i) <==> AliveSince(pre, i) && !Ends(input) && (input.DeadlinePassed? ==> !Pending(pre))
    {
      AliveSinceSnoc(pre, input, i);
    }
    assert AliveSince(more, |pre|) <==> Opens(input);
    hide AliveSince, Pending, Ends, Opens;
    if Alive(more) {
      var i :| 0 <= i < |more| && AliveSince(more, i);
      assert i < |pre| ==> AliveSince(pre, i);
    }
    if Alive(pre) {
      var i :| 0 <= i < |pre| && AliveSince(pre, i);
      assert AliveSince(more, i) <==> !Ends(input) && (input.DeadlinePassed? ==> !Pending(pre));
    }
  }

  lemma UpSnoc(pre: seq<Input>, input: Input)
    ensures Up(pre + [input]) <==>
            (input.SlotConnected? && input.throws.Nowhere? && Alive(pre))
            || ((Idle(input) || input.DeadlinePassed?) && Up(pre))
  {
    var more := pre + [input];
    assert more[..|pre|] == pre && more[|pre|] == input && forall j :: 0 <= j < |pre| ==> more[j] == pre[j];
    hide Alive, Idle;
    assert UpSince(more, |pre|) <==> input.SlotConnected? && input.throws.Nowhere? && Alive(pre);
    forall i: nat | i < |pre| ensures UpSince(more, i) <==> UpSince(pre, i) && (Idle(input) || input.DeadlinePassed?) {
      assert more[..i] == pre[..i];
    }
    hide UpSince;
    if Up(more) {
      var i :| 0 <= i < |more| && UpSince(more, i);
      assert i < |pre| ==> UpSince(pre, i);
    }
    if Up(pre) {
      var i :| 0 <= i < |pre| && UpSince(pre, i);
      assert UpSince(more, i) <==> Idle(input) || input.DeadlinePassed?;
    }
  }

  lemma FlagsStep(l: Link, input: Input)
    requires (l.connected ==> l.client && !l.armed) && (l.armed ==> l.client)
    ensures var l' := Step(l, input);
            && (l'.armed <==> Opens(input) || (Idle(input) && l.armed))
            && (l'.client <==> Opens(input) || (l.client && !Ends(input) && (input.DeadlinePassed? ==> !l.armed)))
            && (l'.connected <==> (input.SlotConnected? && input.throws.Nowhere? && l.client)
                                  || ((Idle(input) || input.DeadlinePassed?) && l.connected))
            && (l'.connected ==> l'.client && !l'.armed) && (l'.armed ==> l'.client)
  {
    if input.Items? {
      ItemsKeepFlags(l, input.items, |input.items|);
    }
    hide TakeItems;
  }

  lemma {:induction false} ItemsKeepFlags(l: Link, items: seq<Item>, n: nat)
    requires n <= |items|
    ensures TakeItems(l, items, n).(events := l.events, cursor := l.cursor) == l
  {
    if n > 0 {
      ItemsKeepFlags(l, items, n - 1);
    }
  }

  // On every run: the deadline is armed exactly while an attempt is pending, there is a client exactly while
  // one is alive, and the link is connected exactly while it is up.
  lemma {:induction false} FlagsAreHistory(inputs: seq<Input>)
    ensures var l := Run(inputs);
            && (l.armed <==> Pending(inputs)) && (l.client <==> Alive(inputs)) && (l.connected <==> Up(inputs))
            && (l.connected ==> l.client && !l.armed) && (l.armed ==> l.client)
  {
    if inputs != [] {
      var pre, input := inputs[..|inputs| - 1], inputs[|inputs| - 1];
      assert inputs == pre + [input];
      FlagsAreHistory(pre);
      FlagsStep(Run(pre), input);
      PendingSnoc(pre, input);
      AliveSnoc(pre, input);
      UpSnoc(pre, input);
      hide Step, Pending, Alive, Up;
    }
  }

  // ---- What each input pushes ----

  // Who authenticated last, by the handshakes that got as far as naming the session.
  ghost function Identity(inputs: seq<Input>): (string, int) {
    if inputs == [] then ("", -1)
    else
      var init, input := inputs[..|inputs| - 1], inputs[|inputs| - 1];
      if input.SlotConnected? && !input.throws.Early? && Alive(init) then (input.seed, input.slot) else Identity(init)
  }

  lemma {:induction false} IdentityIsHistory(inputs: seq<Input>)
    ensures (Run(inputs).seed, Run(inputs).slot) == Identity(inputs)
  {
    if inputs != [] {
      var init, input := inputs[..|inputs| - 1], inputs[|inputs| - 1];
      IdentityIsHistory(init);
      FlagsAreHistory(init);
      IdentityStep(Run(init), input);
      hide Step, Alive;
    }
  }

  lemma IdentityStep(l: Link, input: Input)
    ensures (Step(l, input).seed, Step(l, input).slot) ==
            if input.SlotConnected? && !input.throws.Early? && l.client then (input.seed, input.slot)
            else (l.seed, l.slot)
  {
    if input.Items? {
      ItemsKeepFlags(l, input.items, |input.items|);
    }
    hide TakeItems;
  }

  // On every run, and for every input but a delivery: which events it pushes, in order.
  lemma PushesExactly(inputs: seq<Input>, input: Input)
    requires !input.Items?
    ensures Run(inputs + [input]).events == Run(inputs).events + Pushed(inputs, input)
  {
    hide Run, Step, Alive, Up, Pending, Identity;
    RunSnoc(inputs, input);
    FlagsAreHistory(inputs);
    IdentityIsHistory(inputs);
    EventsStep(Run(inputs), input);
  }

  ghost function Pushed(inputs: seq<Input>, input: Input): seq<Event> {
    PushedBy(input, Alive(inputs), Pending(inputs), Up(inputs), Identity(inputs))
  }

  // A drop of a link that is up is announced; a pending attempt that dies is refused, once.
  function PushedBy(input: Input, alive: bool, pending: bool, up: bool, identity: (string, int)): seq<Event> {
    var drop: seq<Event> := if up then [Disconnected] else [];
    match input
    case ConnectCmd(_, _, _) => drop + [if Opens(input) then Connecting else Refused]
    case DisconnectCmd => drop
    case DeadlinePassed => if pending then [Refused] else []
    case PollThrow => if up then drop else if pending then [Refused] else []
    case SocketDropped => if alive then [Disconnected] else []
    case SlotRefused => if alive then [Refused] else []
    case SlotConnected(seed, slot, throws) =>
      var ended: seq<Event> := if throws.Early? || (seed, slot) == identity then [] else [SessionEnded];
      if !alive then [] else ended + if throws.Nowhere? then [Connected(seed, slot)] else drop
    case _ => if alive then [Other] else []
  }

  lemma EventsStep(l: Link, input: Input)
    requires !input.Items? && (l.connected ==> l.client && !l.armed) && (l.armed ==> l.client)
    ensures Step(l, input).events == l.events + PushedBy(input, l.client, l.armed, l.connected, (l.seed, l.slot))
  {
    match input {
      case ConnectCmd(_, _, _) =>
      case DisconnectCmd =>
      case DeadlinePassed =>
      case SlotConnected(seed, slot, throws) =>
        if l.client {
          AuthenticateEvents(l, seed, slot, throws);
          hide Authenticate;
        }
      case _ =>
    }
  }

  lemma AuthenticateEvents(l: Link, seed: string, slot: int, throws: Throw)
    requires l.client
    ensures Authenticate(l, seed, slot, throws).events ==
            l.events + PushedBy(SlotConnected(seed, slot, throws), true, l.armed, l.connected, (l.seed, l.slot))
  {
  }

  // ---- Deliveries ----

  // Whatever a delivery holds, the game thread holds once it has taken the queue.
  lemma DeliveredIsHeld(lists: ((string, int)) -> seq<int>, inputs: seq<Input>, items: seq<Item>, k: nat)
    requires Faithful(lists, inputs + [Items(items)]) && Alive(inputs) && k < |items|
    ensures items[k] in ApplyAll(Run(inputs + [Items(items)]).events).received
  {
    var more, list := inputs + [Items(items)], lists((Run(inputs).seed, Run(inputs).slot));
    DeliveryReaches(lists, inputs, items, k);
    hide *;
    GameHoldsAPrefixOfTheList(lists, more);
    InNumbered(list, Run(more).cursor + 1, items[k]);
  }

  lemma InNumbered(list: seq<int>, n: nat, item: Item)
    requires n <= |list| && 0 <= item.index < n && list[item.index] == item.itemId
    ensures item in Numbered(list, n)
  {
    assert Numbered(list, n)[item.index] == item;
  }

  // A delivered item is an entry of the list that the cursor has passed afterwards.
  lemma DeliveryReaches(lists: ((string, int)) -> seq<int>, inputs: seq<Input>, items: seq<Item>, k: nat)
    requires Faithful(lists, inputs + [Items(items)]) && Alive(inputs) && k < |items|
    ensures var l, l', item := Run(inputs), Run(inputs + [Items(items)]), items[k];
            && (l'.seed, l'.slot) == (l.seed, l.slot) && 0 <= item.index <= l'.cursor
            && item.index < |lists((l.seed, l.slot))| && lists((l.seed, l.slot))[item.index] == item.itemId
  {
    hide Run, Faithful, Delivers, TakeItems, Alive, Numbered, Read, IsStretch, ListsTo;
    var l, list := Run(inputs), lists((Run(inputs).seed, Run(inputs).slot));
    FaithfulSnoc(lists, inputs, Items(items));
    RunSnoc(inputs, Items(items));
    FlagsAreHistory(inputs);
    RunInOrder(lists, inputs);
    var start := StretchStart(lists, l, items);
    ItemsInOrder(lists, l, items, start, |items|);
    StretchAt(list, start, items, k);
  }

  lemma StretchStart(lists: ((string, int)) -> seq<int>, l: Link, items: seq<Item>) returns (start: nat)
    requires l.client && Delivers(lists, l, Items(items))
    ensures start <= l.cursor + 1 && IsStretch(lists((l.seed, l.slot)), start, items)
    ensures Step(l, Items(items)) == TakeItems(l, items, |items|)
  {
    hide IsStretch, TakeItems;
    start :| start <= l.cursor + 1 && IsStretch(lists((l.seed, l.slot)), start, items);
  }

  lemma FaithfulSnoc(lists: ((string, int)) -> seq<int>, inputs: seq<Input>, input: Input)
    requires Faithful(lists, inputs + [input])
    ensures Faithful(lists, inputs) && Delivers(lists, Run(inputs), input)
  {
    hide Run, Delivers;
    assert (inputs + [input])[..|inputs|] == inputs;
  }

  lemma RunSnoc(inputs: seq<Input>, input: Input)
    ensures Run(inputs + [input]) == Step(Run(inputs), input)
  {
    hide Step;
    assert (inputs + [input])[..|inputs|] == inputs;
  }

  // And keeps it as long as the link's identity stays the same.
  lemma HeldStaysHeld(lists: ((string, int)) -> seq<int>, inputs: seq<Input>, input: Input)
    requires Faithful(lists, inputs + [input]) && Identity(inputs + [input]) == Identity(inputs)
    ensures ApplyAll(Run(inputs).events).received <= ApplyAll(Run(inputs + [input]).events).received
  {
    hide *;
    var more, l := inputs + [input], Run(inputs);
    IdentityIsHistory(inputs);
    IdentityIsHistory(more);
    CursorStays(inputs, input);
    FaithfulSnoc(lists, inputs, input);
    GameHoldsAPrefixOfTheList(lists, inputs);
    GameHoldsAPrefixOfTheList(lists, more);
    NumberedGrows(lists((l.seed, l.slot)), l.cursor + 1, Run(more).cursor + 1);
  }

  lemma CursorStays(inputs: seq<Input>, input: Input)
    requires Identity(inputs + [input]) == Identity(inputs)
    ensures Run(inputs + [input]).cursor >= Run(inputs).cursor
  {
    hide Run, Identity, Sound;
    var more, l := inputs + [input], Run(inputs);
    RunSnoc(inputs, input);
    IdentityIsHistory(inputs);
    IdentityIsHistory(more);
    RunIsSound(inputs);
    if input.Items? {
      CursorGrows(l, input.items, |input.items|);
    } else {
      IdentityStep(l, input);
      StepKeeps(l, input);
      hide Step;
    }
  }

  lemma {:induction false} CursorGrows(l: Link, items: seq<Item>, n: nat)
    requires n <= |items|
    ensures TakeItems(l, items, n).cursor >= l.cursor
  {
    if n > 0 {
      CursorGrows(l, items, n - 1);
    }
  }

  lemma NumberedGrows(list: seq<int>, n: nat, m: nat)
    requires n <= m <= |list|
    ensures Numbered(list, n) <= Numbered(list, m)
  {
  }
}
