/**
  The registry of weak chest handles. Every handle created is destroyed exactly once or still held, and a
  sweep that swap-erases while it iterates visits each live chest exactly once.
 */
module Chests {

  const MAX_TRACKED: nat := 512

  type Handle = int

  datatype MaybeChest = Gone | Live(chest: int)

  function SwapErase(s: seq<Handle>, i: nat): seq<Handle>
    requires i < |s|
  {
    s[i := s[|s| - 1]][..|s| - 1]
  }

  // A sequence around position i and its last, and what the swap-erase leaves of it.
  lemma CutAt(s: seq<Handle>, i: nat)
    requires i < |s| - 1
    ensures s == s[..i] + [s[i]] + s[i + 1..|s| - 1] + [s[|s| - 1]]
  {
  }

  lemma SwapEraseInside(s: seq<Handle>, i: nat)
    requires i < |s| - 1
    ensures SwapErase(s, i) == s[..i] + [s[|s| - 1]] + s[i + 1..|s| - 1]
  {
  }

  lemma SwapEraseLast(s: seq<Handle>)
    requires s != []
    ensures var front, last := s[..|s| - 1], [s[|s| - 1]];
            SwapErase(s, |s| - 1) == front + [] + [] && s == front + last + [] + []
  {
  }

  lemma SwapEraseContents(s: seq<Handle>, i: nat)
    requires i < |s|
    ensures multiset(s) == multiset(SwapErase(s, i)) + multiset{s[i]}
    ensures |SwapErase(s, i)| == |s| - 1 && SwapErase(s, i)[..i] == s[..i]
  {
    hide SwapErase;
    if i == |s| - 1 {
      SwapEraseLast(s);
      MovedAway(s, SwapErase(s, i), s[..i], [s[i]], [], []);
    } else {
      CutAt(s, i);
      SwapEraseInside(s, i);
      MovedAway(s, SwapErase(s, i), s[..i], [s[i]], s[i + 1..|s| - 1], [s[|s| - 1]]);
    }
  }

  // Closing a gap with the last part leaves everything but the gap, and the front as it was.
  lemma MovedAway(s: seq<Handle>, rest: seq<Handle>, a: seq<Handle>, b: seq<Handle>, c: seq<Handle>, d: seq<Handle>)
    requires s == a + b + c + d && rest == a + d + c
    ensures multiset(s) == multiset(rest) + multiset(b)
    ensures |rest| == |s| - |b| && rest[..|a|] == a
  {
    MultisetOfFour(a, b, c, d);
  }

  lemma MultisetOfFour(a: seq<Handle>, b: seq<Handle>, c: seq<Handle>, d: seq<Handle>)
    ensures multiset(a + b + c + d) == multiset(a + d + c) + multiset(b)
  {
    assert multiset(a + b + c + d) == multiset(a + b + c) + multiset(d);
    assert multiset(a + b + c) == multiset(a + b) + multiset(c);
    assert multiset(a + b) == multiset(a) + multiset(b);
    assert multiset(a + d + c) == multiset(a + d) + multiset(c);
    assert multiset(a + d) == multiset(a) + multiset(d);
  }

  // ---- Locks: what visiting a chest does to the game ----

  // The seed's view of locks: which collection slot a chest is (negative when unmatched), and which slots
  // have had their lock removed.
  datatype Locks = Locks(slotOf: int -> int, removed: set<int>)

  predicate Unlocks(locks: Locks, chest: int) { locks.slotOf(chest) >= 0 && locks.slotOf(chest) in locks.removed }

  // Some tracked handle leads to this chest.
  ghost predicate Tracked(handles: seq<Handle>, get: Handle -> MaybeChest, chest: int) {
    exists j :: 0 <= j < |handles| && get(handles[j]) == Live(chest)
  }

  // The locks still on once these handles have been visited.
  ghost predicate LocksAfter(still: set<int>, locked: set<int>, handles: seq<Handle>,
                             get: Handle -> MaybeChest, locks: Locks) {
    forall chest :: chest in still <==>
      chest in locked
      && !(Tracked(handles, get, chest) && locks.slotOf(chest) >= 0 && locks.slotOf(chest) in locks.removed)
  }

  function UnlockChest(locked: set<int>, locks: Locks, chest: int): set<int> {
    if chest in locked && Unlocks(locks, chest) then locked - {chest} else locked
  }

  class ChestRegistry {
    var chests: seq<Handle>
    // History: the handles the game handed us, and the ones given back, each as often as it happened. The game
    // may hand out a value again once it was given back.
    ghost var created: multiset<Handle>
    ghost var destroyed: multiset<Handle>

    ghost predicate Valid()
      reads this
    {
      && |chests| <= MAX_TRACKED
      && created == destroyed + multiset(chests)
      && 0 !in chests
      && forall h :: multiset(chests)[h] <= 1
    }

    constructor ()
      ensures Valid() && chests == [] && created == multiset{}
    {
      chests, created, destroyed := [], multiset{}, multiset{};
    }

    // `weak` is the handle the game creates, 0 when it cannot; a held handle is not created anew.
    method OnChestConstruct(weak: Handle)
      requires Valid() && weak !in chests
      modifies this
      ensures Valid()
      ensures weak == 0 ==> created == old(created) && destroyed == old(destroyed) && chests == old(chests)
      ensures weak != 0 ==> created == old(created) + multiset{weak}
      ensures weak != 0 && |old(chests)| < 512 ==> chests == old(chests) + [weak] && destroyed == old(destroyed)
      ensures weak != 0 && |old(chests)| >= 512 ==>
                chests == old(chests) && destroyed == old(destroyed) + multiset{weak}
    {
      if weak == 0 {
        return;
      }
      created := created + multiset{weak};
      if |chests| >= MAX_TRACKED {
        destroyed := destroyed + multiset{weak};
        return;
      }
      assert multiset(chests)[weak] == 0;
      chests := chests + [weak];
    }

    // Every live handle is visited once and kept, every dead one destroyed once and dropped, and the locks
    // cleared are exactly the removed ones among the chests visited.
    method Sweep(get: Handle -> MaybeChest, locks: Locks, locked: set<int>)
      returns (visited: seq<Handle>, stillLocked: set<int>)
      requires Valid()
      modifies this
      ensures Valid() && created == old(created)
      ensures visited == chests
      ensures forall h :: multiset(chests)[h] == if get(h).Live? then multiset(old(chests))[h] else 0
      ensures forall h :: destroyed[h] == old(destroyed)[h] + if get(h).Gone? then multiset(old(chests))[h] else 0
      ensures LocksAfter(stillLocked, locked, old(chests), get, locks)
    {
      hide LocksAfter;
      ghost var dead;
      chests, dead, visited, stillLocked := SweepHandles(chests, get, locks, locked);
      destroyed := destroyed + dead;
      CountsSplit(old(chests), chests, dead, get);
    }

    method DropAll()
      requires Valid()
      modifies this
      ensures Valid() && chests == [] && created == old(created) && destroyed == created
    {
      destroyed := destroyed + multiset(chests);
      chests := [];
    }
  }

  // The loop: swap-erase keeps it linear, so a handle moved down from the back is looked at in its new place.
  method SweepHandles(all: seq<Handle>, get: Handle -> MaybeChest, locks: Locks, locked: set<int>)
    returns (chests: seq<Handle>, ghost dead: multiset<Handle>, visited: seq<Handle>, stillLocked: set<int>)
    ensures multiset(chests) + dead == multiset(all) && |chests| <= |all|
    ensures (forall j :: 0 <= j < |chests| ==> get(chests[j]).Live?) && forall h :: h in dead ==> get(h).Gone?
    ensures visited == chests && LocksAfter(stillLocked, locked, all, get, locks)
  {
    hide Tracked;
    chests, dead, visited, stillLocked := all, multiset{}, [], locked;
    NothingTracked(get);
    var i := 0;
    while i < |chests|
      invariant 0 <= i <= |chests| <= |all|
      invariant forall j :: 0 <= j < i ==> get(chests[j]).Live?
      invariant forall h :: h in dead ==> get(h).Gone?
      invariant multiset(chests) + dead == multiset(all)
      invariant visited == chests[..i]
      invariant LocksAfter(stillLocked, locked, chests[..i], get, locks)
      decreases |chests| - i
    {
      var h := chests[i];
      var chest := get(h);
      if chest.Gone? {
        SwapEraseContents(chests, i);
        dead := dead + multiset{h};
        chests := SwapErase(chests, i);
      } else {
        UnlockFollows(stillLocked, locked, chests[..i], h, get, locks);
        assert chests[..i + 1] == chests[..i] + [h];
        visited := visited + [h];
        stillLocked := UnlockChest(stillLocked, locks, chest.chest);
        i := i + 1;
      }
    }
    assert chests[..i] == chests;
    TrackedSame(chests, all, dead, get);
  }

  lemma TrackedSnoc(handles: seq<Handle>, h: Handle, get: Handle -> MaybeChest)
    ensures forall chest :: Tracked(handles + [h], get, chest) <==>
              Tracked(handles, get, chest) || get(h) == Live(chest)
  {
    var more := handles + [h];
    forall chest | Tracked(handles, get, chest) || get(h) == Live(chest) ensures Tracked(more, get, chest) {
      if get(h) == Live(chest) {
        assert more[|handles|] == h;
      } else {
        var j :| 0 <= j < |handles| && get(handles[j]) == Live(chest);
        assert more[j] == handles[j];
      }
    }
  }

  lemma NothingTracked(get: Handle -> MaybeChest)
    ensures forall chest :: !Tracked([], get, chest)
  {
  }

  lemma UnlockFollows(still: set<int>, locked: set<int>, handles: seq<Handle>,
                      h: Handle, get: Handle -> MaybeChest, locks: Locks)
    requires get(h).Live? && LocksAfter(still, locked, handles, get, locks)
    ensures LocksAfter(UnlockChest(still, locks, get(h).chest), locked, handles + [h], get, locks)
  {
    TrackedSnoc(handles, h, get);
  }

  // A split into live and dead handles: every live one is kept and every dead one dropped, with its count.
  lemma CountsSplit(all: seq<Handle>, kept: seq<Handle>, dead: multiset<Handle>, get: Handle -> MaybeChest)
    requires multiset(kept) + dead == multiset(all)
    requires forall j :: 0 <= j < |kept| ==> get(kept[j]).Live?
    requires forall h :: h in dead ==> get(h).Gone?
    ensures forall h :: multiset(kept)[h] == if get(h).Live? then multiset(all)[h] else 0
    ensures forall h :: dead[h] == if get(h).Gone? then multiset(all)[h] else 0
    ensures forall h :: h in kept ==> h in all
  {
    forall h
      ensures multiset(kept)[h] == if get(h).Live? then multiset(all)[h] else 0
      ensures dead[h] == if get(h).Gone? then multiset(all)[h] else 0
    {
      assert multiset(kept)[h] + dead[h] == multiset(all)[h];
      if get(h).Gone? {
        assert h !in kept;
      } else {
        assert h !in dead;
      }
    }
    forall h | h in kept ensures h in all {
      assert h in multiset(kept) && h in multiset(all);
    }
  }

  lemma TrackedSame(kept: seq<Handle>, all: seq<Handle>, dead: multiset<Handle>, get: Handle -> MaybeChest)
    requires multiset(kept) + dead == multiset(all) && forall h :: h in dead ==> get(h).Gone?
    ensures forall chest :: Tracked(kept, get, chest) <==> Tracked(all, get, chest)
  {
    forall chest ensures Tracked(kept, get, chest) <==> Tracked(all, get, chest) {
      if Tracked(kept, get, chest) {
        var j :| 0 <= j < |kept| && get(kept[j]) == Live(chest);
        assert kept[j] in multiset(kept) && kept[j] in multiset(all);
        var i :| 0 <= i < |all| && all[i] == kept[j];
      }
      if Tracked(all, get, chest) {
        var j :| 0 <= j < |all| && get(all[j]) == Live(chest);
        var h := all[j];
        assert get(h).Live? && h in multiset(all) && h !in dead && h in multiset(kept);
        var i :| 0 <= i < |kept| && kept[i] == all[j];
      }
    }
  }

  // A handle value was given back exactly as often as it was handed out, once less while it is held.
  lemma DestroyedOnce(r: ChestRegistry, h: Handle)
    requires r.Valid()
    ensures r.destroyed[h] == r.created[h] - (if h in r.chests then 1 else 0)
  {
    assert h in r.chests <==> multiset(r.chests)[h] > 0;
  }
}
