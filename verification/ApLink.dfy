/** The link object itself: its commands and handlers, proved against LinkModel. */
module ApLinks {
  import opened LinkModel

  class ApLink {
    var client: bool
    var connected: bool
    var deadline: bool
    var sessionSeed: string
    var sessionSlot: int
    var lastItemIndex: int
    var events: seq<Event>
    ghost var drained: seq<Event>

    ghost function View(): Link
      reads this
    {
      Link(client, connected, deadline, sessionSeed, sessionSlot, lastItemIndex, drained + events)
    }

    constructor ()
      ensures View() == FRESH
    {
      client, connected, deadline := false, false, false;
      sessionSeed, sessionSlot, lastItemIndex := "", -1, -1;
      events, drained := [], [];
    }

    method PushEvent(e: Event)
      modifies this`events
      ensures View() == Push(old(View()), e)
    {
      events := events + [e];
      assert drained + events == (drained + old(events)) + [e];
    }

    // The game thread takes the queue; what was pushed stays pushed.
    method DrainEvents() returns (r: seq<Event>)
      modifies this`events, this`drained
      ensures r == old(events) && events == [] && View() == old(View())
    {
      r, drained, events := events, drained + events, [];
      assert drained + events == old(drained + events);
    }

    method DoDisconnect()
      modifies this
      ensures View() == Disconnect(old(View()))
    {
      deadline := false;
      if !client {
        return;
      }
      var wasConnected := connected;
      connected, client := false, false;
      if wasConnected {
        PushEvent(Event.Disconnected);
      }
    }

    // `certOk` and `creates` are the certificate choice and whether building the client succeeds.
    method DoConnect(complete: bool, certOk: bool, creates: bool)
      modifies this
      ensures View() == Connect(old(View()), complete, certOk, creates)
    {
      DoDisconnect();
      if !complete {
        PushEvent(Refused);
        return;
      }
      if !certOk {
        PushEvent(Refused);
        return;
      }
      if creates {
        client := true;
        PushEvent(Connecting);
        deadline := true;
      } else {
        PushEvent(Refused);
      }
    }

    method OnSocketDisconnected()
      requires client
      modifies this
      ensures View() == Step(old(View()), SocketDropped)
    {
      connected, deadline := false, false;
      PushEvent(Event.Disconnected);
    }

    method OnSlotRefused()
      requires client
      modifies this
      ensures View() == Step(old(View()), SlotRefused)
    {
      connected, deadline := false, false;
      PushEvent(Refused);
    }

    // A throw leaves poll() and is caught around it.
    method OnSlotConnected(seed: string, slot: int, throws: Throw)
      requires client
      modifies this
      ensures View() == Step(old(View()), SlotConnected(seed, slot, throws))
    {
      deadline := false;
      if throws.Early? {
        OnPollThrow();
        return;
      }
      if seed != sessionSeed || slot != sessionSlot {
        sessionSeed, sessionSlot, lastItemIndex := seed, slot, -1;
        PushEvent(SessionEnded);
      }
      if throws.Late? {
        OnPollThrow();
        return;
      }
      PushEvent(Event.Connected(seed, slot));
      connected := true; // published last
    }

    method OnItemsReceived(items: seq<Item>)
      requires client
      modifies this
      ensures View() == Step(old(View()), Items(items))
    {
      for n := 0 to |items|
        invariant View() == TakeItems(old(View()), items, n) && client
      {
        if items[n].index > lastItemIndex {
          PushEvent(ItemReceived(items[n]));
          lastItemIndex := items[n].index;
        }
      }
    }

    method OnPollThrow()
      modifies this
      ensures View() == CatchThrow(old(View()))
    {
      if connected {
        connected := false;
        PushEvent(Event.Disconnected);
      } else if deadline {
        PushEvent(Refused);
      }
      client, deadline := false, false;
    }

    method CheckDeadline(passed: bool)
      modifies this
      ensures View() == if passed then Step(old(View()), DeadlinePassed) else old(View())
    {
      if deadline && passed {
        deadline := false;
        DoDisconnect();
        PushEvent(Refused);
      }
    }
  }
}
