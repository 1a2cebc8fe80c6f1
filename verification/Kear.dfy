/**
  The kear key ledger: usable keys are the collected bits minus a spent counter, kept in the save slot and
  mirrored in the live player. The hooks cancel the keys a collect would grant, credit received ones, and
  rebuild the cancellation after a reload.
 */
module Kear {

  datatype Option<+T> = None | Some(value: T)

  const WINDOW: int := 64

  // What the hooks read and write: whether the offsets are still trusted, the collected bits and the spent
  // counter of the save slot, and the player's mirror while one is live.
  datatype Books = Books(ok: bool, bits: Bits, save: int, player: Option<int>)

  predicate Plausible(spent: int) { -WINDOW <= spent <= WINDOW }

  // The 64-bit collected field as the set of its bit positions.
  type Bits = s: set<nat> | forall i :: i in s ==> i < 64

  function PopCount(b: Bits): nat { |b| }

  function Usable(b: Books): int { PopCount(b.bits) - b.save }

  function KearReconciledSpent(bits: Bits, spent: int): int {
    if PopCount(bits) > spent then PopCount(bits) else spent
  }

  // ---- The three hooks, as steps on the books ----

  // After a collect took the bits from `before` to their present value.
  function AfterNeutralize(b: Books, before: Bits): Books {
    var added := b.bits - before;
    if !b.ok || added == {} then b
    else if !Plausible(b.save) || (b.player.Some? && !Plausible(b.player.value)) then b.(ok := false)
    else
      var n := PopCount(added);
      b.(save := b.save + n, player := if b.player.Some? then Some(b.player.value + n) else None)
  }

  function AfterReconcile(b: Books): Books {
    if !b.ok then b
    else if !Plausible(b.save) then b.(ok := false)
    else b.(save := KearReconciledSpent(b.bits, b.save))
  }

  predicate CreditTakes(b: Books) {
    b.ok && b.player.Some? && Plausible(b.save) && Plausible(b.player.value)
  }

  function AfterCredit(b: Books): Books {
    if !b.ok || b.player.None? then b
    else if !CreditTakes(b) then b.(ok := false)
    else b.(save := b.save - 1, player := Some(b.player.value - 1))
  }

  // ---- The same on the objects they live in ----

  class SaveSlot {
    var bits: Bits
    var spent: int
  }

  class Player {
    var spent: int
  }

  class KearHooks {
    var offsetsOk: bool
    var neutralize: bool
    var suppress: bool

    ghost function View(slot: SaveSlot, player: Player?): Books
      reads this, slot, player
    {
      Books(offsetsOk, slot.bits, slot.spent, if player == null then None else Some(player.spent))
    }

    method NeutralizeKearGrant(slot: SaveSlot, player: Player?, before: Bits)
      modifies this`offsetsOk, slot`spent, player
      ensures View(slot, player) == AfterNeutralize(old(View(slot, player)), before)
    {
      if !offsetsOk {
        return;
      }
      var newBits := slot.bits - before;
      if newBits == {} {
        return;
      }
      if !Plausible(slot.spent) || (player != null && !Plausible(player.spent)) {
        offsetsOk := false;
        return;
      }
      var n := PopCount(newBits);
      slot.spent := slot.spent + n;
      if player != null {
        player.spent := player.spent + n;
      }
    }

    // A durable collect of a kear location. `available` says the game can be asked to record it, `slot` is the
    // active save slot, if any, whose field then gains `collected`. The key is cancelled in the modes that
    // cancel; with no slot there is neither a field nor a key.
    method ApplyNativeCollected(available: bool, slot: SaveSlot?, player: Player?, collected: Bits)
      returns (applied: bool)
      modifies this`offsetsOk, slot, player
      ensures applied == available
      ensures slot != null ==>
                var marked := old(View(slot, player)).(bits := old(slot.bits) + collected);
                View(slot, player) == if !available then old(View(slot, player))
                                      else if neutralize then AfterNeutralize(marked, old(slot.bits)) else marked
      ensures slot == null ==> offsetsOk == old(offsetsOk) && (player != null ==> player.spent == old(player.spent))
    {
      if !available {
        return false;
      }
      if slot == null {
        return true;
      }
      var before := slot.bits;
      slot.bits := slot.bits + collected;
      if neutralize {
        NeutralizeKearGrant(slot, player, before);
      }
      return true;
    }

    method ReconcileKearKeys(slot: SaveSlot?, ghost player: Player?)
      modifies this`offsetsOk, slot
      ensures slot != null ==> View(slot, player) == if suppress then AfterReconcile(old(View(slot, player)))
                                                     else old(View(slot, player))
      ensures slot == null ==> offsetsOk == old(offsetsOk)
    {
      if !suppress || slot == null || !offsetsOk {
        return;
      }
      if !Plausible(slot.spent) {
        offsetsOk := false;
        return;
      }
      var reconciled := KearReconciledSpent(slot.bits, slot.spent);
      if reconciled != slot.spent {
        slot.spent := reconciled;
      }
    }

    method CreditKearKey(slot: SaveSlot?, player: Player?) returns (credited: bool)
      modifies this`offsetsOk, slot, player
      ensures slot != null ==> View(slot, player) == AfterCredit(old(View(slot, player)))
      ensures credited <==> slot != null && CreditTakes(old(View(slot, player)))
      ensures slot == null ==> offsetsOk == old(offsetsOk) && (player != null ==> player.spent == old(player.spent))
    {
      if !offsetsOk || player == null || slot == null {
        return false;
      }
      if !Plausible(slot.spent) || !Plausible(player.spent) {
        offsetsOk := false;
        return false;
      }
      slot.spent := slot.spent - 1;
      player.spent := player.spent - 1;
      return true;
    }
  }

  // ---- One step ----

  lemma SplitAt(bits: Bits, before: Bits)
    ensures PopCount(bits) - PopCount(bits - before) == PopCount(before) - PopCount(before - bits)
  {
    assert bits == (bits - before) + bits * before;
    assert before == (before - bits) + bits * before;
  }

  // A neutralised collect leaves the usable keys as they were: exactly when the collect cleared no bit.
  lemma NeutralizeKeepsUsableIff(b: Books, before: Bits)
    requires b.ok && AfterNeutralize(b, before).ok
    ensures Usable(AfterNeutralize(b, before)) == Usable(b.(bits := before)) <==> before <= b.bits
  {
    SplitAt(b.bits, before);
    assert before <= b.bits ==> before - b.bits == {};
    if before - b.bits == {} {
      forall i | i in before ensures i in b.bits {
        assert i !in before - b.bits;
      }
    }
  }

  // A credit is worth one key, on both counters; a refused one changes neither.
  lemma CreditIsOneKey(b: Books)
    ensures Usable(AfterCredit(b)) == Usable(b) + if CreditTakes(b) then 1 else 0
    ensures Lead(AfterCredit(b)) == Lead(b)
  {
  }

  // When a received key is credited, by the numbers: the offsets are trusted, a player is live, and neither
  // counter is more than 64 from zero. A live player with a counter out of range costs the trust instead.
  lemma CreditIff(b: Books)
    ensures var r, ranged := AfterCredit(b), -64 <= b.save <= 64 && b.player.Some? && -64 <= b.player.value <= 64;
            && (CreditTakes(b) <==> b.ok && ranged)
            && (r.save == b.save - 1 <==> b.ok && ranged)
            && (r.ok <==> b.ok && (b.player.Some? ==> ranged))
            && r.bits == b.bits
  {
  }

  // How far the save counter is ahead of the player's mirror.
  function Lead(b: Books): Option<int> {
    if b.player.Some? then Some(b.save - b.player.value) else None
  }

  lemma NeutralizeKeepsLead(b: Books, before: Bits)
    ensures Lead(AfterNeutralize(b, before)) == Lead(b)
  {
  }

  // Reconciling takes back the usable keys above zero and nothing else, once.
  lemma ReconcileTakesTheLeak(b: Books)
    requires b.ok && Plausible(b.save)
    ensures var r := AfterReconcile(b);
            && r.ok && r.save >= b.save && Usable(r) == (if Usable(b) > 0 then 0 else Usable(b))
            && AfterReconcile(r) == r
  {
    FieldIsSmall(b.bits);
  }

  lemma FieldIsSmall(bits: Bits)
    ensures PopCount(bits) <= 64
  {
    SubsetSize(bits, Positions(64));
  }

  function Positions(n: nat): (s: set<nat>)
    ensures |s| == n && forall i: nat :: i in s <==> i < n
  {
    if n == 0 then {}
    else
      var below := Positions(n - 1);
      assert n - 1 !in below;
      below + {n - 1}
  }

  lemma SubsetSize(a: set<nat>, b: set<nat>)
    requires a <= b
    ensures |a| <= |b|
  {
    assert b == a + (b - a);
  }

  // ---- Runs ----

  // What happens to the books: a collect that sets bits, a received kear, a lock opened by the game, the
  // per-tick reconciliation, and a load or a change of player, which replaces what is read.
  datatype Event = Collected(more: Bits) | Credited | LockSpent | Reconciled
                 | Reloaded(bits: Bits, save: int, player: Option<int>)

  // The game's side of each event. A lock snaps the save counter to the player's plus one.
  function GameStep(b: Books, e: Event): Books {
    match e
    case Collected(more) => b.(bits := b.bits + more)
    case LockSpent =>
      if b.player.Some? then b.(save := b.player.value + 1, player := Some(b.player.value + 1)) else b
    case Reloaded(bits, save, player) => Books(b.ok, bits, save, player)
    case _ => b
  }

  function Step(b: Books, e: Event): Books {
    var g := GameStep(b, e);
    match e
    case Collected(_) => AfterNeutralize(g, b.bits)
    case Credited => AfterCredit(g)
    case Reconciled => AfterReconcile(g)
    case _ => g
  }

  function Run(b: Books, events: seq<Event>): Books {
    if events == [] then b else Step(Run(b, events[..|events| - 1]), events[|events| - 1])
  }

  function GameRun(b: Books, events: seq<Event>): Books {
    if events == [] then b else GameStep(GameRun(b, events[..|events| - 1]), events[|events| - 1])
  }

  function Count(events: seq<Event>, e: Event): nat {
    if events == [] then 0
    else Count(events[..|events| - 1], e) + if events[|events| - 1] == e then 1 else 0
  }

  // After one implausible read the hooks write nothing more: what follows is the game's own doing.
  lemma {:induction false} OffIsForever(b: Books, events: seq<Event>)
    requires !b.ok
    ensures Run(b, events) == GameRun(b, events)
  {
    if events != [] {
      OffIsForever(b, events[..|events| - 1]);
      OkFollows(b, events[..|events| - 1]);
    }
  }

  lemma {:induction false} OkFollows(b: Books, events: seq<Event>)
    requires !b.ok
    ensures !Run(b, events).ok
  {
    if events != [] {
      OkFollows(b, events[..|events| - 1]);
    }
  }

  // What a hook reads when this event comes is out of range: a collect that sets no new bit reads nothing, nor
  // does a credit without a player.
  predicate Misreads(b: Books, e: Event) {
    match e
    case Collected(more) =>
      !(more <= b.bits) && !(-64 <= b.save <= 64 && (b.player.Some? ==> -64 <= b.player.value <= 64))
    case Credited => b.player.Some? && !(-64 <= b.save <= 64 && -64 <= b.player.value <= 64)
    case Reconciled => !(-64 <= b.save <= 64)
    case _ => false
  }

  ghost predicate MisreadAt(b: Books, events: seq<Event>, k: nat)
    requires k < |events|
  {
    Misreads(Run(b, events[..k]), events[k])
  }

  // The hooks are off exactly when they were at the start or some hook has read a counter out of range.
  lemma {:induction false} OffIff(b: Books, events: seq<Event>)
    ensures !Run(b, events).ok <==> !b.ok || exists k :: 0 <= k < |events| && MisreadAt(b, events, k)
  {
    if events != [] {
      var init, e, n := events[..|events| - 1], events[|events| - 1], |events| - 1;
      OffIff(b, init);
      forall k | 0 <= k < n ensures MisreadAt(b, events, k) <==> MisreadAt(b, init, k) {
        assert events[..k] == init[..k];
      }
      OffStep(Run(b, init), e);
      assert MisreadAt(b, events, n) <==> Misreads(Run(b, init), e);
      hide Misreads, MisreadAt, Step;
      if !Run(b, init).ok && b.ok {
        var k :| 0 <= k < |init| && MisreadAt(b, init, k);
        assert MisreadAt(b, events, k);
      }
    }
  }

  lemma OffStep(b: Books, e: Event)
    ensures !Step(b, e).ok <==> !b.ok || Misreads(b, e)
  {
    if e.Collected? {
      var added := (b.bits + e.more) - b.bits;
      assert added == {} <==> e.more <= b.bits by {
        forall i | i in e.more && i !in b.bits ensures i in added {
        }
      }
    }
  }

  // A lock costs one usable key exactly when the mirror agrees with the save.
  lemma SpendCostsOneIff(b: Books)
    requires b.player.Some?
    ensures Usable(Step(b, LockSpent)) == Usable(b) - 1 <==> Lead(b) == Some(0)
  {
  }

  // Over any run of collects, credits and locks with a player live and in step, the usable keys are those
  // at the start plus one per credit minus one per lock, collects counting for nothing.
  lemma {:induction false} KeysAreConserved(b: Books, events: seq<Event>)
    requires Lead(b) == Some(0)
    requires forall i :: 0 <= i < |events| ==> events[i].Collected? || events[i].Credited? || events[i].LockSpent?
    requires Run(b, events).ok
    ensures Usable(Run(b, events)) == Usable(b) + Count(events, Credited) - Count(events, LockSpent)
    ensures Lead(Run(b, events)) == Some(0)
  {
    if events != [] {
      var before, e := events[..|events| - 1], events[|events| - 1];
      var x := Run(b, before);
      assert Run(b, events) == Step(x, e);
      KeysAreConserved(b, before);
      match e
      case Collected(more) =>
        NeutralizeKeepsUsableIff(GameStep(x, e), x.bits);
        NeutralizeKeepsLead(GameStep(x, e), x.bits);
      case Credited => CreditIsOneKey(x);
      case LockSpent => SpendCostsOneIff(x);
    }
  }

  // In the modes that suppress keys a tick leaves none usable, whatever happened before it.
  lemma SuppressedTickLeavesNone(b: Books, events: seq<Event>)
    ensures var end := Run(b, events + [Reconciled]); end.ok ==> Usable(end) <= 0
  {
    assert (events + [Reconciled])[..|events|] == events;
    var x := Run(b, events);
    if x.ok && Plausible(x.save) {
      ReconcileTakesTheLeak(x);
    }
  }

  // Reconciling writes the save alone: the mirror stays in step exactly when there was no leak, and the
  // next lock undoes it, leaving what it would have left without.
  lemma ReconcileKeepsLeadIff(b: Books)
    requires b.ok && Plausible(b.save) && b.player.Some?
    ensures Lead(AfterReconcile(b)) == Lead(b) <==> Usable(b) <= 0
    ensures Run(b, [Reconciled, LockSpent]) == Run(b, [LockSpent])
  {
    var two, one := [Reconciled, LockSpent], [LockSpent];
    assert two[..1] == [Reconciled] && two[..1][..0] == [] && one[..0] == [];
    assert Run(b, two[..1]) == AfterReconcile(b);
  }
}
