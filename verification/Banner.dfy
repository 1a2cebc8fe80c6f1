/**
  The banner queue: a two-stage FIFO with spaced promotion and timed expiry. Times are reals and need not
  be monotone: none of the results below asks for it.
 */
module Banner {

  const HOLD: real := 5.0
  const FADE: real := 1.0
  const INTERVAL: real := 1.0
  const MAX_VISIBLE: nat := 5

  // A message is its drawn segments.
  type Message = seq<string>

  datatype Active = Active(message: Message, start: real)

  datatype Frame = Frame(message: Message, alpha: real)

  // Before anything was promoted there is no promotion time to wait for.
  datatype Promote = Now | NotBefore(time: real)

  // `retired` is history: every message that was shown and has gone, in order.
  datatype Queue = Queue(pending: seq<Message>, active: seq<Active>, next: Promote, retired: seq<Message>)

  const EMPTY := Queue([], [], Now, [])

  predicate ExpiredAt(a: Active, now: real) { now - a.start >= HOLD + FADE }

  predicate Due(next: Promote, now: real) { next.Now? || now >= next.time }

  function Push(q: Queue, message: Message): Queue {
    if message == [] then q else q.(pending := q.pending + [message])
  }

  function Retire(q: Queue, now: real): Queue
    decreases |q.active|
  {
    if q.active != [] && ExpiredAt(q.active[0], now)
    then Retire(q.(active := q.active[1..], retired := q.retired + [q.active[0].message]), now)
    else q
  }

  function PromoteOne(q: Queue, now: real): Queue {
    if q.pending != [] && |q.active| < MAX_VISIBLE && Due(q.next, now)
    then q.(pending := q.pending[1..],
           active := q.active + [Active(q.pending[0], now)], next := NotBefore(now + INTERVAL))
    else q
  }

  function Update(q: Queue, now: real): Queue { PromoteOne(Retire(q, now), now) }

  function Clamp(x: real): real { if x < 0.0 then 0.0 else if x > 1.0 then 1.0 else x }

  function Alpha(a: Active, now: real): real {
    var elapsed := now - a.start;
    Clamp(if elapsed > HOLD then 1.0 - (elapsed - HOLD) / FADE else 1.0)
  }

  function Frames(q: Queue, now: real): seq<Frame> {
    seq(|q.active|, i requires 0 <= i < |q.active| => Frame(q.active[i].message, Alpha(q.active[i], now)))
  }

  class BannerQueue {
    var pending: seq<Message>
    var active: seq<Active>
    var nextPromote: Promote
    ghost var retired: seq<Message>

    ghost function View(): Queue
      reads this
    {
      Queue(pending, active, nextPromote, retired)
    }

    constructor ()
      ensures View() == EMPTY
    {
      pending, active, nextPromote, retired := [], [], Now, [];
    }

    method PushMessage(message: Message)
      modifies this
      ensures View() == Push(old(View()), message)
    {
      if message == [] {
        return;
      }
      pending := pending + [message];
    }

    method UpdateAt(now: real) returns (frames: seq<Frame>)
      modifies this
      ensures View() == Update(old(View()), now) && frames == Frames(View(), now)
    {
      while active != [] && ExpiredAt(active[0], now)
        invariant Retire(View(), now) == Retire(old(View()), now)
        decreases |active|
      {
        retired := retired + [active[0].message];
        active := active[1..];
      }
      if pending != [] && |active| < MAX_VISIBLE && Due(nextPromote, now) {
        active := active + [Active(pending[0], now)];
        pending := pending[1..];
        nextPromote := NotBefore(now + INTERVAL);
      }
      frames := [];
      for i := 0 to |active|
        invariant frames == Frames(View(), now)[..i]
      {
        frames := frames + [Frame(active[i].message, Alpha(active[i], now))];
      }
    }
  }

  // ---- Runs ----

  datatype Input = PushIn(message: Message) | UpdateIn(now: real)

  function Step(q: Queue, input: Input): Queue {
    match input
    case PushIn(message) => Push(q, message)
    case UpdateIn(now) => Update(q, now)
  }

  function Run(inputs: seq<Input>): Queue {
    if inputs == [] then EMPTY else Step(Run(inputs[..|inputs| - 1]), inputs[|inputs| - 1])
  }

  function Pushed(inputs: seq<Input>): seq<Message> {
    if inputs == [] then []
    else
      var before, input := Pushed(inputs[..|inputs| - 1]), inputs[|inputs| - 1];
      if input.PushIn? && input.message != [] then before + [input.message] else before
  }

  function Messages(active: seq<Active>): seq<Message> {
    seq(|active|, i requires 0 <= i < |active| => active[i].message)
  }

  // Everything in the queue, in the order it was pushed.
  function Everything(q: Queue): seq<Message> { q.retired + Messages(q.active) + q.pending }

  // Visible messages appeared at least one interval apart, the newest of them one before the next may.
  ghost predicate Spaced(q: Queue) { SpacedOut(q.active, q.next) }

  ghost predicate SpacedOut(active: seq<Active>, next: Promote) {
    && |active| <= MAX_VISIBLE
    && (forall i, j :: 0 <= i < j < |active| ==> active[i].start + INTERVAL <= active[j].start)
    && (forall i :: 0 <= i < |active| ==> next.NotBefore? && active[i].start + INTERVAL <= next.time)
  }

  lemma {:induction false} RetireKeeps(q: Queue, now: real)
    requires Spaced(q)
    ensures var q' := Retire(q, now);
            && Spaced(q') && Everything(q') == Everything(q)
            && (forall i :: 0 <= i < |q'.active| ==> !ExpiredAt(q'.active[i], now))
    decreases |q.active|
  {
    if q.active != [] && ExpiredAt(q.active[0], now) {
      var popped := q.(active := q.active[1..], retired := q.retired + [q.active[0].message]);
      assert Messages(q.active) == [q.active[0].message] + Messages(popped.active);
      assert Everything(popped) == Everything(q);
      RetireKeeps(popped, now);
    }
  }

  lemma PromoteKeeps(q: Queue, now: real)
    requires Spaced(q)
    ensures Spaced(PromoteOne(q, now)) && Everything(PromoteOne(q, now)) == Everything(q)
  {
    var q' := PromoteOne(q, now);
    if q' != q {
      assert Messages(q'.active) == Messages(q.active) + [q.pending[0]];
      assert q.pending == [q.pending[0]] + q.pending[1..];
      assert Everything(q') == Everything(q);
    }
  }

  lemma PushAppends(q: Queue, message: Message)
    requires message != []
    ensures Everything(Push(q, message)) == Everything(q) + [message]
  {
    var shown := q.retired + Messages(q.active);
    assert shown + (q.pending + [message]) == shown + q.pending + [message];
  }

  // Nothing is lost, duplicated or reordered, whatever the clock does; at most five are visible, spaced.
  lemma {:induction false} Conservation(inputs: seq<Input>)
    ensures var q := Run(inputs); Everything(q) == Pushed(inputs) && Spaced(q)
  {
    if inputs == [] {
      assert |Everything(EMPTY)| == 0;
    } else {
      var q, input := Run(inputs[..|inputs| - 1]), inputs[|inputs| - 1];
      Conservation(inputs[..|inputs| - 1]);
      StepConserves(q, input);
      hide Everything, Spaced, Step;
    }
  }

  lemma StepConserves(q: Queue, input: Input)
    requires Spaced(q)
    ensures Spaced(Step(q, input))
    ensures Everything(Step(q, input)) ==
            if input.PushIn? && input.message != [] then Everything(q) + [input.message] else Everything(q)
  {
    match input {
      case PushIn(message) =>
        if message != [] {
          PushAppends(q, message);
        }
        hide Everything, SpacedOut;
      case UpdateIn(now) =>
        RetireKeeps(q, now);
        PromoteKeeps(Retire(q, now), now);
        hide Everything, Spaced, Retire, PromoteOne;
    }
  }

  // What an update leaves visible: popping the front alone has removed every expired message.
  lemma UpdateLeavesNoneExpired(q: Queue, now: real)
    requires Spaced(q)
    ensures var active := Update(q, now).active;
            && |active| <= MAX_VISIBLE
            && (forall i, j :: 0 <= i < j < |active| ==> active[i].start + INTERVAL <= active[j].start)
            && (forall i :: 0 <= i < |active| ==> !ExpiredAt(active[i], now))
  {
    RetireKeeps(q, now);
    PromoteKeeps(Retire(q, now), now);
  }

  lemma OlderIsFainter(a: Active, b: Active, now: real)
    requires a.start <= b.start && !ExpiredAt(a, now)
    ensures 0.0 < Alpha(a, now) <= Alpha(b, now) <= 1.0
  {
  }

  // So every frame drawn is visible, and no older one is brighter than a newer one.
  lemma FramesFade(inputs: seq<Input>, now: real, i: nat, j: nat)
    requires i <= j
    ensures var frames := Frames(Update(Run(inputs), now), now);
            |frames| <= MAX_VISIBLE && (j < |frames| ==> 0.0 < frames[i].alpha <= frames[j].alpha <= 1.0)
  {
    Conservation(inputs);
    UpdateLeavesNoneExpired(Run(inputs), now);
    var active := Update(Run(inputs), now).active;
    if j < |active| {
      OlderIsFainter(active[i], active[j], now);
    }
  }

  // How bright a frame is: full for five seconds, then fading out over one; after six the message is gone.
  lemma BrightnessIs(q: Queue, now: real, i: nat)
    requires Spaced(q) && i < |Update(q, now).active|
    ensures var a := Update(q, now).active[i]; var elapsed := now - a.start;
            && elapsed < 6.0
            && Frames(Update(q, now), now)[i] == Frame(a.message, if elapsed <= 5.0 then 1.0 else 6.0 - elapsed)
  {
    UpdateLeavesNoneExpired(q, now);
    assert !ExpiredAt(Update(q, now).active[i], now);
  }

  // What one update does: exactly the messages shown for six seconds go, the others stay in order, and the
  // front message joins them exactly when fewer than five are left and a second has passed since the last one.
  lemma UpdateIs(q: Queue, now: real) returns (gone: nat)
    requires Spaced(q)
    ensures gone <= |q.active| && forall i :: 0 <= i < |q.active| ==> (now - q.active[i].start >= 6.0 <==> i < gone)
    ensures var q', left := Update(q, now), q.active[gone..];
            && q'.retired == q.retired + Messages(q.active[..gone])
            && if q.pending != [] && |left| < 5 && (q.next.Now? || now >= q.next.time)
               then q'.active == left + [Active(q.pending[0], now)] && q'.pending == q.pending[1..]
                    && q'.next == NotBefore(now + 1.0)
               else q'.active == left && q'.pending == q.pending && q'.next == q.next
  {
    gone := RetireIs(q, now);
    hide Retire, Spaced;
  }

  lemma {:induction false} RetireIs(q: Queue, now: real) returns (gone: nat)
    requires Spaced(q)
    ensures gone <= |q.active| && forall i :: 0 <= i < |q.active| ==> (now - q.active[i].start >= 6.0 <==> i < gone)
    ensures Retire(q, now) == q.(active := q.active[gone..], retired := q.retired + Messages(q.active[..gone]))
    decreases |q.active|
  {
    hide Retire, Spaced;
    RetireTurn(q, now);
    if q.active != [] && ExpiredAt(q.active[0], now) {
      var popped := q.(active := q.active[1..], retired := q.retired + [q.active[0].message]);
      gone := RetireIs(popped, now);
      OneMoreGone(q.active, now, gone);
      MessagesCons(q.active, gone);
      hide Messages;
      gone := gone + 1;
    } else {
      NoneGone(q, now);
      gone := 0;
    }
  }

  lemma RetireTurn(q: Queue, now: real)
    requires Spaced(q)
    ensures if q.active != [] && ExpiredAt(q.active[0], now)
            then var popped := q.(active := q.active[1..], retired := q.retired + [q.active[0].message]);
                 Spaced(popped) && Retire(q, now) == Retire(popped, now)
            else Retire(q, now) == q.(active := q.active[0..], retired := q.retired + Messages(q.active[..0]))
  {
  }

  lemma MessagesCons(active: seq<Active>, n: nat)
    requires n < |active|
    ensures Messages(active[..n + 1]) == [active[0].message] + Messages(active[1..][..n])
  {
  }

  lemma OneMoreGone(active: seq<Active>, now: real, gone: nat)
    requires active != [] && gone < |active| && now - active[0].start >= 6.0
    requires forall i :: 0 <= i < |active| - 1 ==> (now - active[1..][i].start >= 6.0 <==> i < gone)
    ensures active[1..][gone..] == active[gone + 1..]
    ensures forall i :: 0 <= i < |active| ==> (now - active[i].start >= 6.0 <==> i < gone + 1)
  {
    forall i | 0 < i < |active| ensures now - active[i].start >= 6.0 <==> i < gone + 1 {
      assert active[i] == active[1..][i - 1];
    }
  }

  lemma NoneGone(q: Queue, now: real)
    requires Spaced(q) && (q.active == [] || !ExpiredAt(q.active[0], now))
    ensures forall i :: 0 <= i < |q.active| ==> now - q.active[i].start < 6.0
  {
  }

  // A message waits only for a free place and its turn: with both, the next update shows it.
  lemma FrontIsPromoted(q: Queue, now: real)
    requires q.pending != [] && Due(q.next, now)
    requires |q.active| < MAX_VISIBLE || ExpiredAt(q.active[0], now)
    requires |q.active| <= MAX_VISIBLE
    ensures Active(q.pending[0], now) in Update(q, now).active
  {
    RetireShrinks(q, now);
    var r := Retire(q, now);
    assert PromoteOne(r, now).active[|r.active|] == Active(q.pending[0], now);
  }

  lemma {:induction false} RetireShrinks(q: Queue, now: real)
    ensures var r := Retire(q, now);
            && r.pending == q.pending && r.next == q.next && |r.active| <= |q.active|
            && (q.active != [] && ExpiredAt(q.active[0], now) ==> |r.active| < |q.active|)
    decreases |q.active|
  {
    if q.active != [] && ExpiredAt(q.active[0], now) {
      RetireShrinks(q.(active := q.active[1..], retired := q.retired + [q.active[0].message]), now);
    }
  }
}
