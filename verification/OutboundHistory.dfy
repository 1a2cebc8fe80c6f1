/**
  Outbound checks in terms of the inputs alone: which ids the attached save and the session fallback hold, and
  what each input sends, told by what was collected, reported and seen before it.
 */
module OutboundHistory {
  import opened Outbound

  // ---- What the inputs so far amount to ----

  // The input that attached the present save, or -1 while none is attached.
  function AttachedAt(inputs: seq<Input>): (i: int)
    ensures -1 <= i < |inputs|
    ensures i >= 0 ==> inputs[i].EnsureInbound?
  {
    if inputs == [] then -1
    else
      var init, input := inputs[..|inputs| - 1], inputs[|inputs| - 1];
      if input.EndSession? then -1
      else if input.EnsureInbound? && AttachedAt(init) < 0 then |init|
      else AttachedAt(init)
  }

  function RoomsOf(inputs: seq<Input>): Rooms {
    if inputs == [] then Rooms({}, {})
    else if inputs[|inputs| - 1].NewRooms? then inputs[|inputs| - 1].rooms
    else RoomsOf(inputs[..|inputs| - 1])
  }

  // The last change of the link brought it up.
  predicate LinkIsUp(inputs: seq<Input>) {
    inputs != [] &&
    var input := inputs[|inputs| - 1];
    input.LinkUp? || (!input.LinkDown? && LinkIsUp(inputs[..|inputs| - 1]))
  }

  // How often the link came up.
  function Connections(inputs: seq<Input>): nat {
    if inputs == [] then 0
    else
      var init, input := inputs[..|inputs| - 1], inputs[|inputs| - 1];
      Connections(init) + (if input.LinkUp? && !LinkIsUp(init) then 1 else 0)
  }

  // A location of the seed that was not removed from it.
  predicate Wanted(rooms: Rooms, id: int) { id >= 0 && id in rooms.valid && id !in rooms.removed }

  // Input j records this id, if a record of the kind is kept at that time.
  predicate Names(inputs: seq<Input>, j: nat, id: int, collected: bool)
    requires j < |inputs|
  {
    inputs[j] == (if collected then CollectIn(id) else ReconcileIn(id)) && Wanted(RoomsOf(inputs[..j]), id)
  }

  // The attached save was stored with the id, or it was collected or reported by the server since.
  ghost predicate InSave(inputs: seq<Input>, id: int) {
    var i := AttachedAt(inputs);
    i >= 0 && (id in inputs[i].stored ||
               exists j, collected :: i < j < |inputs| && Names(inputs, j, id, collected))
  }

  // No save is attached now, nor was one at any time since the first k inputs.
  ghost predicate NoSaveFrom(inputs: seq<Input>, k: nat) {
    AttachedAt(inputs) < 0 && (|inputs| <= k || NoSaveFrom(inputs[..|inputs| - 1], k))
  }

  // Collected while no save was attached, and none was attached since.
  ghost predicate InFallback(inputs: seq<Input>, id: int) {
    exists j: nat :: j < |inputs| && Names(inputs, j, id, true) && NoSaveFrom(inputs, j)
  }

  // Some tick found the link up and a save attached; since then no tick found it down and no session ended.
  ghost predicate FlushedSince(inputs: seq<Input>, j: nat)
    requires j < |inputs|
  {
    && inputs[j] == Tick && LinkIsUp(inputs[..j]) && AttachedAt(inputs[..j]) >= 0
    && forall k :: j < k < |inputs| ==> !Unlatches(inputs, k)
  }

  predicate Unlatches(inputs: seq<Input>, k: nat)
    requires k < |inputs|
  {
    inputs[k].EndSession? || (inputs[k] == Tick && !LinkIsUp(inputs[..k]))
  }

  ghost predicate Flushed(inputs: seq<Input>) {
    exists j :: 0 <= j < |inputs| && FlushedSince(inputs, j)
  }

  // ---- The state is a digest of that ----

  lemma {:induction false} LinkIsHistory(inputs: seq<Input>)
    ensures var a := Run(START, inputs);
            && a.rooms == RoomsOf(inputs) && a.bridge.up == LinkIsUp(inputs) && a.bridge.epoch == Connections(inputs)
            && (a.bridge.save.Some? <==> AttachedAt(inputs) >= 0)
  {
    if inputs != [] {
      LinkIsHistory(inputs[..|inputs| - 1]);
      LinkStep(Run(START, inputs[..|inputs| - 1]), inputs[|inputs| - 1]);
      hide Step;
    }
  }

  lemma LinkStep(a: App, input: Input)
    ensures var a' := Step(a, input);
            && a'.rooms == (if input.NewRooms? then input.rooms else a.rooms)
            && a'.bridge.up == (input.LinkUp? || (!input.LinkDown? && a.bridge.up))
            && a'.bridge.epoch == a.bridge.epoch + (if input.LinkUp? && !a.bridge.up then 1 else 0)
            && (a'.bridge.save.Some? <==> !input.EndSession? && (input.EnsureInbound? || a.bridge.save.Some?))
  {
  }

  // What one input does to the two records.
  lemma RecordStep(a: App, input: Input)
    requires a.bridge.save.Some? ==> a.bridge.sent == {}
    ensures var b, b' := a.bridge, Step(a, input).bridge;
            && (b'.save.Some? ==> b'.sent == {})
            && (forall id :: b'.save.Some? ==>
                  (id in b'.save.value <==>
                     if b.save.None? then id in input.stored
                     else id in b.save.value
                          || ((input == CollectIn(id) || input == ReconcileIn(id)) && Wanted(a.rooms, id))))
            && (forall id :: b'.save.None? ==>
                  (id in b'.sent <==>
                     b.save.None? && (id in b.sent || (input == CollectIn(id) && Wanted(a.rooms, id)))))
  {
  }

  lemma NamesSnoc(pre: seq<Input>, input: Input, id: int)
    ensures forall j: nat, collected :: j < |pre| ==>
              (Names(pre + [input], j, id, collected) <==> Names(pre, j, id, collected))
    ensures forall collected :: Names(pre + [input], |pre|, id, collected) <==>
              input == (if collected then CollectIn(id) else ReconcileIn(id)) && Wanted(RoomsOf(pre), id)
  {
    var more := pre + [input];
    assert more[..|pre|] == pre;
    forall j: nat, collected | j < |pre| ensures Names(more, j, id, collected) <==> Names(pre, j, id, collected) {
      assert more[..j] == pre[..j];
    }
  }

  lemma AttachedSnoc(pre: seq<Input>, input: Input)
    ensures var i, i' := AttachedAt(pre), AttachedAt(pre + [input]);
            i' == if input.EndSession? then -1 else if input.EnsureInbound? && i < 0 then |pre| else i
  {
    assert (pre + [input])[..|pre|] == pre;
  }

  lemma InSaveSnoc(pre: seq<Input>, input: Input, id: int)
    requires AttachedAt(pre + [input]) >= 0
    ensures InSave(pre + [input], id) <==>
            if AttachedAt(pre) < 0 then id in input.stored
            else InSave(pre, id)
                 || ((input == CollectIn(id) || input == ReconcileIn(id)) && Wanted(RoomsOf(pre), id))
  {
    var more, i := pre + [input], AttachedAt(pre + [input]);
    AttachedSnoc(pre, input);
    NamesSnoc(pre, input, id);
    hide Names, AttachedAt, RoomsOf, Wanted;
    if i < |pre| {
      assert more[i] == pre[i];
      if j, collected :| i < j < |pre| && Names(pre, j, id, collected) {
        assert Names(more, j, id, collected);
      }
      assert Names(more, |pre|, id, true) || Names(more, |pre|, id, false) <==>
        (input == CollectIn(id) || input == ReconcileIn(id)) && Wanted(RoomsOf(pre), id);
    }
  }

  lemma NoSaveSnoc(pre: seq<Input>, input: Input, k: nat)
    requires k <= |pre|
    ensures NoSaveFrom(pre + [input], k) <==> NoSaveFrom(pre, k) && AttachedAt(pre + [input]) < 0
  {
    hide AttachedAt;
    assert (pre + [input])[..|pre|] == pre;
  }

  lemma InFallbackSnoc(pre: seq<Input>, input: Input, id: int)
    ensures InFallback(pre + [input], id) <==>
            && AttachedAt(pre) < 0 && AttachedAt(pre + [input]) < 0
            && (InFallback(pre, id) || (input == CollectIn(id) && Wanted(RoomsOf(pre), id)))
  {
    var more := pre + [input];
    NamesSnoc(pre, input, id);
    forall k: nat | k <= |pre| ensures NoSaveFrom(more, k) <==> NoSaveFrom(pre, k) && AttachedAt(more) < 0 {
      NoSaveSnoc(pre, input, k);
    }
    NoSaveNow(pre);
    hide NoSaveFrom, AttachedAt, RoomsOf, Wanted, Names;
    if InFallback(more, id) {
      var j: nat :| j < |more| && Names(more, j, id, true) && NoSaveFrom(more, j);
      assert j < |pre| ==> Names(pre, j, id, true);
    }
    if AttachedAt(more) < 0 && InFallback(pre, id) {
      var j: nat :| j < |pre| && Names(pre, j, id, true) && NoSaveFrom(pre, j);
      assert Names(more, j, id, true);
    }
    if AttachedAt(pre) < 0 && AttachedAt(more) < 0 && input == CollectIn(id) && Wanted(RoomsOf(pre), id) {
      assert Names(more, |pre|, id, true);
    }
  }

  lemma NoSaveNow(inputs: seq<Input>)
    ensures forall k: nat :: k <= |inputs| && NoSaveFrom(inputs, k) ==> AttachedAt(inputs) < 0
    ensures NoSaveFrom(inputs, |inputs|) <==> AttachedAt(inputs) < 0
  {
    hide AttachedAt;
  }

  // On every run the attached save holds exactly what it was stored with and what was collected or reported
  // since, and the fallback exactly what was collected with no save attached.
  lemma {:induction false} RecordsAreHistory(inputs: seq<Input>, id: int)
    ensures var b := Run(START, inputs).bridge;
            && (b.save.Some? ==> b.sent == {})
            && (b.save.Some? ==> (id in b.save.value <==> InSave(inputs, id)))
            && (b.save.None? ==> (id in b.sent <==> InFallback(inputs, id)))
  {
    if inputs != [] {
      var pre, input := inputs[..|inputs| - 1], inputs[|inputs| - 1];
      assert inputs == pre + [input];
      RecordsAreHistory(pre, id);
      LinkIsHistory(pre);
      LinkIsHistory(inputs);
      RecordStep(Run(START, pre), input);
      if AttachedAt(inputs) >= 0 {
        InSaveSnoc(pre, input, id);
      } else {
        InFallbackSnoc(pre, input, id);
      }
      hide Step, InSave, InFallback, AttachedAt, RoomsOf, LinkIsUp, Connections, Wanted;
      assert Run(START, inputs) == Step(Run(START, pre), input);
    }
  }

  lemma FlushedSnoc(pre: seq<Input>, input: Input)
    ensures Flushed(pre + [input]) <==>
            && !input.EndSession? && (input == Tick ==> LinkIsUp(pre))
            && (Flushed(pre) || (input == Tick && AttachedAt(pre) >= 0))
  {
    var more := pre + [input];
    assert more[..|pre|] == pre;
    forall j: nat | j < |pre|
      ensures FlushedSince(more, j) <==> FlushedSince(pre, j) && !Unlatches(more, |pre|)
    {
      FlushedSinceSnoc(pre, input, j);
    }
    assert FlushedSince(more, |pre|) <==> input == Tick && LinkIsUp(pre) && AttachedAt(pre) >= 0;
    hide FlushedSince;
    if Flushed(more) {
      var j :| 0 <= j < |more| && FlushedSince(more, j);
      assert j < |pre| ==> FlushedSince(pre, j);
    }
    if Flushed(pre) && !Unlatches(more, |pre|) {
      var j :| 0 <= j < |pre| && FlushedSince(pre, j);
      assert FlushedSince(more, j);
    }
  }

  lemma FlushedSinceSnoc(pre: seq<Input>, input: Input, j: nat)
    requires j < |pre|
    ensures FlushedSince(pre + [input], j) <==> FlushedSince(pre, j) && !Unlatches(pre + [input], |pre|)
  {
    var more := pre + [input];
    assert more[..j] == pre[..j];
    forall k: nat | k < |pre| ensures Unlatches(more, k) <==> Unlatches(pre, k) {
      assert more[..k] == pre[..k];
    }
    hide Unlatches, LinkIsUp, AttachedAt;
  }

  lemma {:induction false} FlushedIsHistory(inputs: seq<Input>)
    ensures Run(START, inputs).latched <==> Flushed(inputs)
  {
    if inputs != [] {
      var pre, input := inputs[..|inputs| - 1], inputs[|inputs| - 1];
      assert inputs == pre + [input];
      FlushedIsHistory(pre);
      LinkIsHistory(pre);
      FlushedSnoc(pre, input);
      LatchStep(Run(START, pre), input);
      hide Step, Flushed;
    }
  }

  lemma LatchStep(a: App, input: Input)
    ensures Step(a, input).latched <==>
            && !input.EndSession? && (input == Tick ==> a.bridge.up)
            && (a.latched || (input == Tick && a.bridge.save.Some?))
  {
  }

  // ---- What goes out ----

  // Everything the record in force holds that the seed has not removed.
  ghost predicate Outstanding(inputs: seq<Input>, id: int) {
    && (if AttachedAt(inputs) >= 0 then InSave(inputs, id) else InFallback(inputs, id))
    && !(id >= 0 && id in RoomsOf(inputs).removed)
  }

  ghost predicate AnyOutstanding(inputs: seq<Input>) { exists id :: Outstanding(inputs, id) }

  // On every run each input sends exactly this: a first collect with the link up its own id, a tick that finds
  // a save and the link up with no flush since the last drop seen everything outstanding, any other nothing.
  lemma SendsIff(inputs: seq<Input>, input: Input)
    ensures var before, after := Run(START, inputs).bridge.wire, Run(START, inputs + [input]).bridge.wire;
            && (input.CollectIn? && LinkIsUp(inputs)
                && Wanted(RoomsOf(inputs), input.slot) && !Outstanding(inputs, input.slot) ==>
                  after == before + [Msg(Connections(inputs), {input.slot}, false)])
            && (input == Tick && LinkIsUp(inputs) && AttachedAt(inputs) >= 0
                && !Flushed(inputs) && AnyOutstanding(inputs) ==>
                  && |after| == |before| + 1 && after[..|before|] == before
                  && after[|before|].epoch == Connections(inputs)
                  && forall id :: id in after[|before|].ids <==> Outstanding(inputs, id))
            && (after == before ||
                (LinkIsUp(inputs) &&
                 if input == Tick then AttachedAt(inputs) >= 0 && !Flushed(inputs) && AnyOutstanding(inputs)
                 else input.CollectIn? && Wanted(RoomsOf(inputs), input.slot) && !Outstanding(inputs, input.slot)))
  {
    var a := Run(START, inputs);
    assert (inputs + [input])[..|inputs|] == inputs;
    LinkIsHistory(inputs);
    FlushedIsHistory(inputs);
    forall id ensures Outstanding(inputs, id) <==> IsOutstanding(a, id) {
      RecordsAreHistory(inputs, id);
    }
    assert Run(START, inputs + [input]) == Step(a, input);
    WireStep(a, input);
    hide Step, Outstanding, IsOutstanding, Flushed, LinkIsUp, AttachedAt, RoomsOf, Connections, Wanted, Run;
    if AnyIsOutstanding(a) {
      var id :| IsOutstanding(a, id);
      assert Outstanding(inputs, id);
    }
    if AnyOutstanding(inputs) {
      var id :| Outstanding(inputs, id);
      assert IsOutstanding(a, id);
    }
  }

  predicate IsOutstanding(a: App, id: int) {
    (if a.bridge.save.Some? then id in a.bridge.save.value else id in a.bridge.sent)
    && !(id >= 0 && id in a.rooms.removed)
  }

  ghost predicate AnyIsOutstanding(a: App) { exists id :: IsOutstanding(a, id) }

  lemma WireStep(a: App, input: Input)
    ensures var b, before, after := a.bridge, a.bridge.wire, Step(a, input).bridge.wire;
            && (input.CollectIn? && b.up && Wanted(a.rooms, input.slot) && !IsOutstanding(a, input.slot) ==>
                  after == before + [Msg(b.epoch, {input.slot}, false)])
            && (input == Tick && b.up && b.save.Some? && !a.latched && AnyIsOutstanding(a) ==>
                  && |after| == |before| + 1 && after[..|before|] == before
                  && after[|before|].epoch == b.epoch
                  && forall id :: id in after[|before|].ids <==> IsOutstanding(a, id))
            && (after == before ||
                (b.up &&
                 if input == Tick then b.save.Some? && !a.latched && AnyIsOutstanding(a)
                 else input.CollectIn? && Wanted(a.rooms, input.slot) && !IsOutstanding(a, input.slot)))
  {
    if input == Tick && a.bridge.save.Some? {
      var ids := ToResend(a.bridge, a.rooms);
      assert forall id :: id in ids <==> IsOutstanding(a, id);
      if AnyIsOutstanding(a) {
        var id :| IsOutstanding(a, id);
        assert id in ids;
      }
    }
  }

  // ---- A collected check reaches the server ----

  // The report kept for an id is one the server made on that connection.
  ghost predicate ReportedAt(inputs: seq<Input>, j: nat, r: Report)
    requires j < |inputs|
  {
    inputs[j] == ReconcileIn(r.id) && Connections(inputs[..j]) == r.epoch
  }

  ghost predicate ServerSaid(inputs: seq<Input>, r: Report) {
    exists j: nat :: j < |inputs| && ReportedAt(inputs, j, r)
  }

  lemma {:induction false} ReportsAreHistory(inputs: seq<Input>)
    ensures forall r :: r in Run(START, inputs).bridge.reported ==> ServerSaid(inputs, r)
  {
    if inputs != [] {
      var pre, input := inputs[..|inputs| - 1], inputs[|inputs| - 1];
      ReportsAreHistory(pre);
      LinkIsHistory(pre);
      ReportStep(Run(START, pre), input);
      forall r | r in Run(START, inputs).bridge.reported ensures ServerSaid(inputs, r) {
        hide Step, Run, Connections;
        if r in Run(START, pre).bridge.reported {
          var j: nat :| j < |pre| && ReportedAt(pre, j, r);
          assert inputs[..j] == pre[..j] && ReportedAt(inputs, j, r);
        } else {
          assert ReportedAt(inputs, |pre|, r);
        }
      }
    }
  }

  lemma ReportStep(a: App, input: Input)
    ensures forall r :: r in Step(a, input).bridge.reported && r !in a.bridge.reported ==>
              input == ReconcileIn(r.id) && r.epoch == a.bridge.epoch
  {
  }

  // What is recorded in a save stays recorded as long as the session lasts.
  lemma {:induction false} StaysInSave(inputs: seq<Input>, more: seq<Input>, id: int)
    requires AttachedAt(inputs) >= 0 && InSave(inputs, id) && forall k :: 0 <= k < |more| ==> !more[k].EndSession?
    ensures AttachedAt(inputs + more) >= 0 && InSave(inputs + more, id)
  {
    if more == [] {
      assert inputs + more == inputs;
    } else {
      var init, input := more[..|more| - 1], more[|more| - 1];
      StaysInSave(inputs, init, id);
      assert inputs + more == (inputs + init) + [input];
      AttachedSnoc(inputs + init, input);
      InSaveSnoc(inputs + init, input, id);
    }
  }

  // A check collected under a save, whatever the link does then: once a tick has seen the link down, any later
  // tick of the session that finds it up has the id sent on that connection, or the server named it there.
  lemma CollectedReachesServer(pre: seq<Input>, id: int, post: seq<Input>, more: seq<Input>)
    requires AttachedAt(pre) >= 0 && Wanted(RoomsOf(pre), id)
    requires forall k :: 0 <= k < |post| ==> !post[k].EndSession?
    requires forall k :: 0 <= k < |more| ==> !more[k].EndSession?
    requires var down := pre + [CollectIn(id)] + post;
      && !LinkIsUp(down) && AllSeen(Run(START, down + [Tick]), more)
      && LinkIsUp(down + [Tick] + more) && id !in RoomsOf(down + [Tick] + more).removed
    ensures var all := pre + [CollectIn(id)] + post + [Tick] + more;
      || id in SentOn(Run(START, all + [Tick]).bridge.wire, Connections(all))
      || ServerSaid(all + [Tick], Report(Connections(all), id))
  {
    var down := pre + [CollectIn(id)] + post;
    var all := down + [Tick] + more;
    CollectedStays(pre, id, post, more);
    hide AllSeen, InSave, AttachedAt, ServerSaid, Run, Connections, LinkIsUp, RoomsOf;
    Resent(down, more, id);
    ReportsAreHistory(all + [Tick]);
  }

  lemma CollectedStays(pre: seq<Input>, id: int, post: seq<Input>, more: seq<Input>)
    requires AttachedAt(pre) >= 0 && Wanted(RoomsOf(pre), id)
    requires forall k :: 0 <= k < |post| ==> !post[k].EndSession?
    requires forall k :: 0 <= k < |more| ==> !more[k].EndSession?
    ensures var all := pre + [CollectIn(id)] + post + [Tick] + more; AttachedAt(all) >= 0 && InSave(all, id)
  {
    AttachedSnoc(pre, CollectIn(id));
    InSaveSnoc(pre, CollectIn(id), id);
    hide InSave, AttachedAt, RoomsOf, Wanted;
    StaysInSave(pre + [CollectIn(id)], post, id);
    StaysInSave(pre + [CollectIn(id)] + post, [Tick], id);
    StaysInSave(pre + [CollectIn(id)] + post + [Tick], more, id);
  }

  lemma Resent(down: seq<Input>, more: seq<Input>, id: int)
    requires !LinkIsUp(down) && AllSeen(Run(START, down + [Tick]), more)
    requires var all := down + [Tick] + more;
      LinkIsUp(all) && AttachedAt(all) >= 0 && InSave(all, id) && id !in RoomsOf(all).removed
    ensures var all := down + [Tick] + more; var b := Run(START, all + [Tick]).bridge;
      id in SentOn(b.wire, Connections(all)) || Report(Connections(all), id) in b.reported
  {
    var all := down + [Tick] + more;
    LinkIsHistory(down);
    LinkIsHistory(all);
    RecordsAreHistory(all, id);
    RunSnoc(START, down, Tick);
    RunSnoc(START, all, Tick);
    RunConcat(START, down + [Tick], more);
    TickAfterDropResends(Run(START, down), more);
    TickKeepsRecord(Run(START, all));
    hide Step, Run, AllSeen, LinkIsUp, AttachedAt, InSave;
  }

  lemma TickKeepsRecord(a: App)
    ensures Step(a, Tick).bridge.save == a.bridge.save && Step(a, Tick).rooms == a.rooms
    ensures Step(a, Tick).bridge.epoch == a.bridge.epoch
  {
  }

  lemma {:induction false} RunConcat(a: App, inputs: seq<Input>, more: seq<Input>)
    ensures Run(a, inputs + more) == Run(Run(a, inputs), more)
  {
    if more == [] {
      assert inputs + more == inputs;
    } else {
      RunConcat(a, inputs, more[..|more| - 1]);
      assert (inputs + more)[..|inputs + more| - 1] == inputs + more[..|more| - 1];
    }
  }
}
