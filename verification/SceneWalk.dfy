/**
  The budgeted depth-first walk of the live scene graph. The graph is whatever the game hands back:
  possibly cyclic, possibly with nodes of any width. `null` is node 0.
 */
module SceneWalk {

  const MAX_NODES: nat := 65536
  const MAX_CHILDREN: nat := 8192
  // The last node expanded starts below the budget and adds at most one full buffer.
  const MAX_VISITED: nat := 65535 + 8192

  type Node = int

  // The three questions a walk asks the game: direct children, is it shaped like a component, is it an entity.
  datatype Scene = Scene(kids: Node -> seq<Node>, valid: Node -> bool, entity: Node -> bool)

  // The children call answers zero for a null entity.
  predicate NullHasNoKids(g: Scene) { g.kids(0) == [] }

  datatype Report = Report(
    visited: int,
    widest: Node,
    widestChildren: int,
    budgetSpent: bool,
    stopped: bool)

  // No guard tripped and no visitor ended the walk.
  predicate Quiet(r: Report) { !r.budgetSpent && r.widest == 0 && !r.stopped }

  // The children of e that are handed to the visitor, and the ones the walk descends into instead.
  predicate Leaf(g: Scene, c: Node) { g.valid(c) && !g.entity(c) }

  predicate Inner(g: Scene, c: Node) { g.valid(c) && g.entity(c) }

  function Leaves(g: Scene, cs: seq<Node>): (r: seq<Node>)
    ensures forall c :: c in r <==> c in cs && Leaf(g, c)
  {
    if cs == [] then []
    else Leaves(g, cs[..|cs| - 1]) + (if Leaf(g, cs[|cs| - 1]) then [cs[|cs| - 1]] else [])
  }

  function Inners(g: Scene, cs: seq<Node>): (r: seq<Node>)
    ensures forall c :: c in r <==> c in cs && Inner(g, c)
  {
    if cs == [] then []
    else Inners(g, cs[..|cs| - 1]) + (if Inner(g, cs[|cs| - 1]) then [cs[|cs| - 1]] else [])
  }

  // One buffer is sorted child by child, each in its place.
  lemma SortedInPlace(g: Scene, cs: seq<Node>, c: Node)
    ensures Leaves(g, cs + [c]) == Leaves(g, cs) + (if g.valid(c) && !g.entity(c) then [c] else [])
    ensures Inners(g, cs + [c]) == Inners(g, cs) + (if g.valid(c) && g.entity(c) then [c] else [])
    ensures Leaves(g, []) == [] && Inners(g, []) == []
  {
    assert (cs + [c])[..|cs|] == cs;
  }

  function Flatten(spans: seq<seq<Node>>): seq<Node> {
    if spans == [] then [] else Flatten(spans[..|spans| - 1]) + spans[|spans| - 1]
  }

  lemma FlattenSnoc(spans: seq<seq<Node>>, span: seq<Node>)
    ensures Flatten(spans + [span]) == Flatten(spans) + span
  {
    assert (spans + [span])[..|spans|] == spans;
  }

  // ---- What a walk ought to reach ----

  ghost predicate EntityPath(g: Scene, root: Node, path: seq<Node>) {
    if |path| <= 1 then path == [root]
    else
      var shorter, last := path[..|path| - 1], path[|path| - 1];
      EntityPath(g, root, shorter) && last in g.kids(shorter[|shorter| - 1]) && Inner(g, last)
  }

  ghost predicate Reachable(g: Scene, root: Node, e: Node) {
    exists path :: EntityPath(g, root, path) && path != [] && path[|path| - 1] == e
  }

  // The entities on some path of entities from the root.
  ghost function Reach(g: Scene, root: Node): iset<Node> {
    iset e | Reachable(g, root, e)
  }

  // The components the visitor ought to see.
  ghost function ToVisit(g: Scene, root: Node): iset<Node> {
    iset e, c | e in Reach(g, root) && c in g.kids(e) && Leaf(g, c) :: c
  }

  // The two facts about these sets that the walk needs; R and V stand for them below.
  ghost predicate ClosedSets(g: Scene, R: iset<Node>, V: iset<Node>) {
    forall e, c :: e in R && c in g.kids(e) ==> (Inner(g, c) ==> c in R) && (Leaf(g, c) ==> c in V)
  }

  lemma ReachIsClosed(g: Scene, root: Node)
    ensures root in Reach(g, root) && ClosedSets(g, Reach(g, root), ToVisit(g, root))
  {
    assert EntityPath(g, root, [root]) && [root][|[root]| - 1] == root;
    forall e, c | e in Reach(g, root) && c in g.kids(e) && Inner(g, c) ensures c in Reach(g, root) {
      var path :| EntityPath(g, root, path) && path != [] && path[|path| - 1] == e;
      var longer := path + [c];
      assert longer[..|path|] == path;
      assert EntityPath(g, root, longer) && longer[|longer| - 1] == c;
    }
  }

  // ---- Where a walk stands: finished entities, scheduled ones, components handed over ----

  ghost predicate Within(R: iset<Node>, V: iset<Node>, done: set<Node>, pending: seq<Node>, handed: seq<Node>) {
    && (forall e :: e in done ==> e in R)
    && (forall e :: e in pending ==> e in R)
    && (forall c :: c in handed ==> c in V)
  }

  // A finished entity's children were handed over or are at least scheduled.
  ghost predicate Closed(g: Scene, done: set<Node>, pending: seq<Node>, handed: seq<Node>) {
    forall e, c :: e in done && c in g.kids(e) ==>
      (Leaf(g, c) ==> c in handed) && (Inner(g, c) ==> c in done || c in pending)
  }

  lemma {:induction false} ClosedCoversPath(g: Scene, root: Node, path: seq<Node>, done: set<Node>, handed: seq<Node>)
    requires EntityPath(g, root, path) && path != [] && root in done && Closed(g, done, [], handed)
    ensures path[|path| - 1] in done
  {
    if |path| > 1 {
      ClosedCoversPath(g, root, path[..|path| - 1], done, handed);
    }
  }

  lemma ClosedIsComplete(g: Scene, root: Node, done: set<Node>, handed: seq<Node>)
    requires root in done && Closed(g, done, [], handed)
    ensures forall c :: c in ToVisit(g, root) ==> c in handed
  {
    forall c | c in ToVisit(g, root) ensures c in handed {
      var e, path := ParentPath(g, root, c);
      ClosedCoversPath(g, root, path, done, handed);
      hide ToVisit, EntityPath;
    }
  }

  // A component to be visited has a parent on some path of entities from the root.
  lemma ParentPath(g: Scene, root: Node, c: Node) returns (e: Node, path: seq<Node>)
    requires c in ToVisit(g, root)
    ensures c in g.kids(e) && Leaf(g, c) && EntityPath(g, root, path) && path != [] && path[|path| - 1] == e
  {
    e :| e in Reach(g, root) && c in g.kids(e) && Leaf(g, c);
    path :| EntityPath(g, root, path) && path != [] && path[|path| - 1] == e;
  }

  lemma ExpandKeepsClosed(g: Scene, done: set<Node>, rest: seq<Node>, handed: seq<Node>, e: Node)
    requires Closed(g, done, rest + [e], handed)
    ensures Closed(g, done + {e}, rest + Inners(g, g.kids(e)), handed + Leaves(g, g.kids(e)))
  {
  }

  // Also for a node walked only in part: `buffer` is any part of its children.
  lemma ExpandKeepsWithin(g: Scene, R: iset<Node>, V: iset<Node>, done: set<Node>, rest: seq<Node>, handed: seq<Node>,
                          e: Node, buffer: seq<Node>)
    requires ClosedSets(g, R, V) && Within(R, V, done, rest, handed)
    requires e in R && forall c :: c in buffer ==> c in g.kids(e)
    ensures Within(R, V, done + {e}, rest + Inners(g, buffer), handed + Leaves(g, buffer))
  {
  }

  // ---- Exactly once, on a tree ----

  predicate NoDuplicates(s: seq<Node>) {
    forall i, j :: 0 <= i < j < |s| ==> s[i] != s[j]
  }

  // On R every validated component is one child of one entity only, and nothing points back at the root.
  ghost predicate TreeOn(g: Scene, root: Node, R: iset<Node>) {
    && (forall e :: e in R ==>
          && NoDuplicates(Leaves(g, g.kids(e))) && NoDuplicates(Inners(g, g.kids(e)))
          && root !in Inners(g, g.kids(e)))
    && (forall e, f, c :: e in R && f in R && c in g.kids(e) && c in g.kids(f) && g.valid(c) ==> e == f)
  }

  ghost predicate IsTree(g: Scene, root: Node) { TreeOn(g, root, Reach(g, root)) }

  ghost predicate HasParent(g: Scene, done: set<Node>, c: Node) {
    exists e :: e in done && c in g.kids(e)
  }

  ghost predicate Once(g: Scene, root: Node, done: set<Node>, pending: seq<Node>, handed: seq<Node>) {
    && NoDuplicates(pending) && NoDuplicates(handed)
    && (forall c :: c in pending ==> c !in done)
    && (forall c :: c in done && c != root ==> HasParent(g, done, c))
    && (forall c :: c in pending && c != root ==> HasParent(g, done, c))
    && (forall c :: c in handed ==> HasParent(g, done, c))
  }

  lemma NoDuplicatesConcat(a: seq<Node>, b: seq<Node>)
    requires NoDuplicates(a) && NoDuplicates(b) && forall c :: c in b ==> c !in a
    ensures NoDuplicates(a + b)
  {
    forall i, j | 0 <= i < j < |a + b| ensures (a + b)[i] != (a + b)[j] {
      if i < |a| <= j {
        assert b[j - |a|] in b;
      }
    }
  }

  // A child of e has no other parent in R, so it has none among the finished entities.
  lemma ChildIsNew(g: Scene, root: Node, R: iset<Node>, done: set<Node>, e: Node, c: Node)
    requires TreeOn(g, root, R) && e in R && e !in done && (forall f :: f in done ==> f in R)
    requires c in g.kids(e) && g.valid(c)
    ensures !HasParent(g, done, c)
  {
  }

  // None of e's children was scheduled, finished or handed over before.
  lemma ChildrenAreNew(g: Scene, root: Node, R: iset<Node>, done: set<Node>, rest: seq<Node>,
                       handed: seq<Node>, e: Node)
    requires TreeOn(g, root, R) && e in R && (forall f :: f in done ==> f in R)
    requires Once(g, root, done, rest + [e], handed)
    ensures forall c :: c in Inners(g, g.kids(e)) ==> c !in rest && c !in done && c != e
    ensures forall c :: c in Leaves(g, g.kids(e)) ==> c !in handed
  {
    OnceSplit(g, root, done, rest, handed, e);
    forall c | c in Inners(g, g.kids(e)) ensures c !in rest && c !in done && c != e {
      ChildIsNew(g, root, R, done, e, c);
    }
    forall c | c in Leaves(g, g.kids(e)) ensures c !in handed {
      ChildIsNew(g, root, R, done, e, c);
    }
  }

  lemma ExpandKeepsOnce(g: Scene, root: Node, R: iset<Node>, done: set<Node>, rest: seq<Node>,
                        handed: seq<Node>, e: Node)
    requires TreeOn(g, root, R) && e in R && (forall f :: f in done ==> f in R)
    requires Once(g, root, done, rest + [e], handed)
    ensures Once(g, root, done + {e}, rest + Inners(g, g.kids(e)), handed + Leaves(g, g.kids(e)))
  {
    var inner, leaf := Inners(g, g.kids(e)), Leaves(g, g.kids(e));
    OnceSplit(g, root, done, rest, handed, e);
    ChildrenAreNew(g, root, R, done, rest, handed, e);
    assert NoDuplicates(inner) && NoDuplicates(leaf);
    OnceJoin(g, root, done, rest, handed, e, inner, leaf);
  }

  lemma OnceJoin(g: Scene, root: Node, done: set<Node>, rest: seq<Node>, handed: seq<Node>, e: Node,
                 inner: seq<Node>, leaf: seq<Node>)
    requires NoDuplicates(rest) && NoDuplicates(inner) && NoDuplicates(leaf) && NoDuplicates(handed) && e !in rest
    requires forall c :: c in inner ==> c in g.kids(e) && c !in rest && c !in done && c != e
    requires forall c :: c in leaf ==> c in g.kids(e) && c !in handed
    requires forall c :: c in rest ==> c !in done
    requires forall c :: (c in rest || c in done || c == e) && c != root ==> HasParent(g, done, c)
    requires forall c :: c in handed ==> HasParent(g, done, c)
    ensures Once(g, root, done + {e}, rest + inner, handed + leaf)
  {
    NoDuplicatesConcat(rest, inner);
    NoDuplicatesConcat(handed, leaf);
    ParentsGrow(g, done, e);
  }

  lemma OnceSplit(g: Scene, root: Node, done: set<Node>, rest: seq<Node>, handed: seq<Node>, e: Node)
    requires Once(g, root, done, rest + [e], handed)
    ensures e !in done && e !in rest && NoDuplicates(rest)
    ensures forall c :: c in rest ==> c !in done
    ensures forall c :: c in rest && c != root ==> HasParent(g, done, c)
    ensures e != root ==> HasParent(g, done, e)
  {
    var all := rest + [e];
    assert e == all[|rest|] && forall i :: 0 <= i < |rest| ==> rest[i] == all[i];
    assert forall c :: c in rest ==> c in all;
    assert e in all;
  }

  lemma ParentsGrow(g: Scene, done: set<Node>, e: Node)
    ensures forall c :: HasParent(g, done, c) || c in g.kids(e) ==> HasParent(g, done + {e}, c)
  {
    forall c | HasParent(g, done, c) || c in g.kids(e) ensures HasParent(g, done + {e}, c) {
      if HasParent(g, done, c) {
        var f :| f in done && c in g.kids(f);
        assert f in done + {e};
      }
    }
  }

  // ---- The walk, one entity at a time ----

  // `full` says that no node was walked in part so far; `turns` counts the entities taken off the stack.
  datatype Stage = Stage(done: set<Node>, pending: seq<Node>, handed: seq<Node>, full: bool, turns: nat)

  // Every validated child met was handed over or scheduled; the root was scheduled without being met.
  function Met(st: Stage): int { |st.handed| + st.turns + |st.pending| - 1 }

  function Prefix(g: Scene, e: Node): seq<Node> {
    g.kids(e)[..if |g.kids(e)| > MAX_CHILDREN then MAX_CHILDREN else |g.kids(e)|]
  }

  ghost function Expand(g: Scene, st: Stage): Stage {
    if st.pending == [] then st
    else
      var e, rest := st.pending[|st.pending| - 1], st.pending[..|st.pending| - 1];
      Stage(st.done + {e}, rest + Inners(g, Prefix(g, e)), st.handed + Leaves(g, Prefix(g, e)),
            st.full && |g.kids(e)| <= MAX_CHILDREN, st.turns + 1)
  }

  ghost function StageAt(g: Scene, root: Node, n: nat): Stage {
    if n == 0 then Stage({}, [root], [], true, 0) else Expand(g, StageAt(g, root, n - 1))
  }

  ghost predicate Progress(g: Scene, root: Node, R: iset<Node>, V: iset<Node>, st: Stage) {
    && Within(R, V, st.done, st.pending, st.handed)
    && (root in st.done || root in st.pending)
    && (st.full ==> Closed(g, st.done, st.pending, st.handed))
    && (st.full && TreeOn(g, root, R) ==> Once(g, root, st.done, st.pending, st.handed) && st.turns == |st.done|)
  }

  // On a tree every turn finishes an entity that was not finished before.
  lemma TurnKeepsOnce(g: Scene, root: Node, R: iset<Node>, V: iset<Node>, st: Stage, rest: seq<Node>, e: Node)
    requires st.pending == rest + [e] && TreeOn(g, root, R) && e in R && Within(R, V, st.done, st.pending, st.handed)
    requires Once(g, root, st.done, st.pending, st.handed) && st.turns == |st.done|
    ensures Once(g, root, st.done + {e}, rest + Inners(g, g.kids(e)), st.handed + Leaves(g, g.kids(e)))
    ensures st.turns + 1 == |st.done + {e}|
  {
    OnceSplit(g, root, st.done, rest, st.handed, e);
    hide Once, TreeOn;
    ExpandKeepsOnce(g, root, R, st.done, rest, st.handed, e);
  }

  lemma ExpandKeepsProgress(g: Scene, root: Node, R: iset<Node>, V: iset<Node>, st: Stage)
    requires ClosedSets(g, R, V) && Progress(g, root, R, V, st)
    ensures Progress(g, root, R, V, Expand(g, st))
  {
    hide Once, Closed, TreeOn, HasParent, NoDuplicates, ClosedSets;
    if st.pending != [] {
      var e, rest := st.pending[|st.pending| - 1], st.pending[..|st.pending| - 1];
      assert st.pending == rest + [e];
      assert e in rest + [e] && forall c :: c in rest ==> c in rest + [e];
      ExpandKeepsWithin(g, R, V, st.done, rest, st.handed, e, Prefix(g, e));
      hide Within;
      if st.full && |g.kids(e)| <= MAX_CHILDREN {
        assert Prefix(g, e) == g.kids(e);
        ExpandKeepsClosed(g, st.done, rest, st.handed, e);
        if TreeOn(g, root, R) {
          TurnKeepsOnce(g, root, R, V, st, rest, e);
        }
      }
    }
  }

  lemma {:induction false} ProgressAt(g: Scene, root: Node, R: iset<Node>, V: iset<Node>, n: nat)
    requires root in R && ClosedSets(g, R, V)
    ensures Progress(g, root, R, V, StageAt(g, root, n))
  {
    if n > 0 {
      ProgressAt(g, root, R, V, n - 1);
      ExpandKeepsProgress(g, root, R, V, StageAt(g, root, n - 1));
    }
  }

  // The walk has got this far; which number of entities that took does not matter.
  ghost predicate IsStage(g: Scene, root: Node, st: Stage) {
    exists n: nat :: st == StageAt(g, root, n)
  }

  // What a stage is worth once the walk ends there.
  lemma StageMeans(g: Scene, root: Node, st: Stage)
    requires IsStage(g, root, st)
    ensures forall c :: c in st.handed ==> c in ToVisit(g, root)
    ensures st.full && st.pending == [] ==> forall c :: c in ToVisit(g, root) ==> c in st.handed
    ensures st.full && IsTree(g, root) ==> NoDuplicates(st.handed)
  {
    var n: nat :| st == StageAt(g, root, n);
    ReachIsClosed(g, root);
    ProgressAt(g, root, Reach(g, root), ToVisit(g, root), n);
    if st.full && st.pending == [] {
      ClosedIsComplete(g, root, st.done, st.handed);
    }
  }

  // ---- How much a walk counts ----

  // S holds exactly the validated children of reachable entities.
  ghost predicate IsChildSet(g: Scene, root: Node, S: set<Node>) {
    forall c :: c in S <==> exists e :: e in Reach(g, root) && c in g.kids(e) && g.valid(c)
  }

  // Whatever is reached below the root is a validated entity with a parent that is reached.
  lemma ReachedHasParent(g: Scene, root: Node, e: Node)
    requires e in Reach(g, root) && e != root
    ensures Inner(g, e) && exists f :: f in Reach(g, root) && e in g.kids(f)
  {
    var path :| EntityPath(g, root, path) && path != [] && path[|path| - 1] == e;
    PathEndHasParent(g, root, path);
  }

  lemma PathEndHasParent(g: Scene, root: Node, path: seq<Node>)
    requires EntityPath(g, root, path) && |path| > 1
    ensures Inner(g, path[|path| - 1])
    ensures exists f :: f in Reach(g, root) && path[|path| - 1] in g.kids(f)
  {
    var shorter := path[..|path| - 1];
    var f := shorter[|shorter| - 1];
    assert EntityPath(g, root, shorter) && path[|path| - 1] in g.kids(f);
    hide EntityPath;
    assert Reachable(g, root, f);
  }

  lemma {:induction false} DistinctCount(s: seq<Node>)
    requires NoDuplicates(s)
    ensures |set c | c in s| == |s|
  {
    if s != [] {
      var init := s[..|s| - 1];
      DistinctCount(init);
      assert s == init + [s[|s| - 1]];
      assert (set c | c in s) == (set c | c in init) + {s[|s| - 1]};
    }
  }

  lemma SubsetCount(A: set<Node>, B: set<Node>)
    requires A <= B
    ensures |A| <= |B| && (|A| == |B| ==> A == B)
  {
    assert B == A + (B - A) && A !! B - A;
    assert |B| == |A| + |B - A|;
  }

  // Each thing met is met once, so the count is that of the things met.
  lemma MetCount(g: Scene, root: Node, st: Stage) returns (T: set<Node>)
    requires Once(g, root, st.done, st.pending, st.handed) && st.turns == |st.done|
    requires root in st.done || root in st.pending
    requires forall c :: c in st.handed ==> !g.entity(c)
    requires forall e :: e in st.done || e in st.pending ==> e == root || g.entity(e)
    ensures forall c :: c in T <==> c in st.handed || (c != root && (c in st.done || c in st.pending))
    ensures |T| == Met(st)
  {
    hide HasParent;
    DistinctCount(st.handed);
    DistinctCount(st.pending);
    var handed, waiting := (set c | c in st.handed), (set c | c in st.pending);
    var entities := st.done + waiting;
    T := handed + (entities - {root});
    hide Once, NoDuplicates;
    assert root in entities;
    forall c | c in handed ensures c !in entities - {root} {
      assert c in st.handed;
    }
    UnionCount(handed, entities, root);
  }

  lemma UnionCount(A: set<Node>, B: set<Node>, b: Node)
    requires b in B && A !! B - {b}
    ensures |A + (B - {b})| == |A| + |B| - 1
  {
    assert B == (B - {b}) + {b};
  }

  // A stage with what it says about reachable nodes.
  lemma StageKnows(g: Scene, root: Node, st: Stage)
    requires IsStage(g, root, st)
    ensures Progress(g, root, Reach(g, root), ToVisit(g, root), st)
    ensures forall c :: c in st.handed ==> !g.entity(c)
    ensures forall e :: e in st.done || e in st.pending ==> e in Reach(g, root) && (e == root || g.entity(e))
  {
    var n: nat :| st == StageAt(g, root, n);
    ReachIsClosed(g, root);
    ProgressAt(g, root, Reach(g, root), ToVisit(g, root), n);
    hide IsStage, StageAt, Once, Closed;
    forall e | e in st.done || e in st.pending ensures e in Reach(g, root) && (e == root || g.entity(e)) {
      if e != root {
        ReachedHasParent(g, root, e);
      }
    }
  }

  // What a walk met so far is among the children there are.
  lemma MetIsChild(g: Scene, root: Node, S: set<Node>, c: Node)
    requires IsChildSet(g, root, S) && (c in ToVisit(g, root) || (c in Reach(g, root) && c != root))
    ensures c in S
  {
    if c in Reach(g, root) && c != root {
      ReachedHasParent(g, root, c);
    }
  }

  // And at the end every child there is was met.
  lemma ChildIsMet(g: Scene, root: Node, S: set<Node>, done: set<Node>, handed: seq<Node>, c: Node)
    requires IsChildSet(g, root, S) && root in done && Closed(g, done, [], handed) && IsTree(g, root) && c in S
    ensures c in handed || (c != root && c in done)
  {
    var e :| e in Reach(g, root) && c in g.kids(e) && g.valid(c);
    var path :| EntityPath(g, root, path) && path != [] && path[|path| - 1] == e;
    ClosedCoversPath(g, root, path, done, handed);
  }

  // On a tree the count never exceeds the number of children there are, and is that number at the end.
  lemma StageCounts(g: Scene, root: Node, st: Stage, S: set<Node>)
    requires IsStage(g, root, st) && st.full && IsTree(g, root) && IsChildSet(g, root, S)
    ensures Met(st) <= |S|
    ensures st.pending == [] ==> Met(st) == |S|
  {
    StageKnows(g, root, st);
    hide IsStage, Once, Reach, NoDuplicates, TreeOn, Closed, ToVisit, IsChildSet;
    var T := MetCount(g, root, st);
    hide Met;
    forall c | c in T ensures c in S {
      MetIsChild(g, root, S, c);
    }
    SubsetCount(T, S);
    if st.pending == [] {
      forall c | c in S ensures c in T {
        ChildIsMet(g, root, S, st.done, st.handed, c);
      }
      assert T == S;
    }
  }

  // ---- Wide nodes: the scene as the walk sees it ----

  // Only the first 8192 children of a node are ever looked at.
  function Cut(g: Scene): Scene {
    g.(kids := e => if |g.kids(e)| > 8192 then g.kids(e)[..8192] else g.kids(e))
  }

  // A walk of the scene is a walk of the cut scene, in which no node is wide.
  lemma CutStage(g: Scene, root: Node, st: Stage)
    requires IsStage(g, root, st)
    ensures IsStage(Cut(g), root, st.(full := true))
  {
    var n: nat :| st == StageAt(g, root, n);
    CutStageAt(g, root, n);
  }

  lemma {:induction false} CutStageAt(g: Scene, root: Node, n: nat)
    ensures StageAt(Cut(g), root, n) == StageAt(g, root, n).(full := true)
  {
    hide Expand, Cut;
    if n > 0 {
      StageNext(g, root, n - 1);
      StageNext(Cut(g), root, n - 1);
      hide StageAt;
      CutStageAt(g, root, n - 1);
      CutExpand(g, StageAt(g, root, n - 1));
    }
  }

  lemma CutExpand(g: Scene, st: Stage)
    ensures Expand(Cut(g), st.(full := true)) == Expand(g, st).(full := true)
  {
    if st.pending != [] {
      var e := st.pending[|st.pending| - 1];
      assert Prefix(Cut(g), e) == Prefix(g, e) && |Cut(g).kids(e)| <= 8192;
      CutSorts(g, Prefix(g, e));
      hide Prefix, Cut, Inners, Leaves;
    }
  }

  lemma {:induction false} CutSorts(g: Scene, cs: seq<Node>)
    ensures Inners(Cut(g), cs) == Inners(g, cs) && Leaves(Cut(g), cs) == Leaves(g, cs)
  {
    if cs != [] {
      CutSorts(g, cs[..|cs| - 1]);
    }
  }

  // The flag says whether a wide node was walked.
  lemma {:induction false} FullMeans(g: Scene, root: Node, n: nat)
    ensures StageAt(g, root, n).full <==> forall e :: e in StageAt(g, root, n).done ==> |g.kids(e)| <= 8192
  {
    if n > 0 {
      FullMeans(g, root, n - 1);
    }
  }

  ghost predicate NoneWide(g: Scene, R: iset<Node>) {
    forall e :: e in R ==> |g.kids(e)| <= 8192
  }

  // A walk that ends with an empty stack has met all there is in the cut scene, wide nodes or not.
  lemma CutMeans(g: Scene, root: Node, st: Stage)
    requires IsStage(g, root, st)
    ensures forall c :: c in st.handed ==> c in ToVisit(Cut(g), root)
    ensures st.pending == [] ==> forall c :: c in ToVisit(Cut(g), root) ==> c in st.handed
    ensures IsTree(Cut(g), root) ==> NoDuplicates(st.handed)
    ensures forall e :: e in st.done ==> e in Reach(Cut(g), root)
    ensures st.pending == [] && st.full ==> NoneWide(g, Reach(Cut(g), root))
  {
    var n: nat :| st == StageAt(g, root, n);
    FullMeans(g, root, n);
    CutStage(g, root, st);
    var h, cut := Cut(g), st.(full := true);
    StageMeans(h, root, cut);
    StageKnows(h, root, cut);
    if st.pending == [] && st.full {
      forall e | e in Reach(h, root) ensures e in st.done {
        var path :| EntityPath(h, root, path) && path != [] && path[|path| - 1] == e;
        ClosedCoversPath(h, root, path, st.done, st.handed);
      }
    }
  }

  // ---- Depth first ----

  // Until everything under the entity on top is done, the entities below it stay where they are.
  lemma {:induction false} DepthFirst(g: Scene, root: Node, rest: seq<Node>, n: nat, m: nat)
    requires rest <= StageAt(g, root, n).pending && n <= m
    requires forall k :: n <= k < m ==> |StageAt(g, root, k).pending| > |rest|
    ensures rest <= StageAt(g, root, m).pending
  {
    hide StageAt, Expand;
    if n < m {
      StageNext(g, root, m - 1);
      DepthFirst(g, root, rest, n, m - 1);
      ExpandKeepsBelow(g, rest, StageAt(g, root, m - 1));
    }
  }

  lemma StageNext(g: Scene, root: Node, n: nat)
    ensures StageAt(g, root, n + 1) == Expand(g, StageAt(g, root, n))
  {
  }

  lemma ExpandKeepsBelow(g: Scene, rest: seq<Node>, st: Stage)
    requires rest <= st.pending && |rest| < |st.pending|
    ensures rest <= Expand(g, st).pending
  {
  }

  // And the next entity walked is the last one put on the stack.
  lemma LastChildNext(g: Scene, root: Node, n: nat, rest: seq<Node>, e: Node)
    requires StageAt(g, root, n).pending == rest + [e]
    ensures StageAt(g, root, n + 1).done == StageAt(g, root, n).done + {e}
    ensures |g.kids(e)| <= 8192 ==>
      && StageAt(g, root, n + 1).pending == rest + Inners(g, g.kids(e))
      && StageAt(g, root, n + 1).handed == StageAt(g, root, n).handed + Leaves(g, g.kids(e))
  {
    assert (rest + [e])[..|rest|] == rest;
    assert |g.kids(e)| <= 8192 ==> Prefix(g, e) == g.kids(e);
  }

  // The visitor was asked after every span, and said yes to all but possibly the last.
  ghost predicate Shown(keep: seq<seq<Node>> -> bool, spans: seq<seq<Node>>) {
    && (forall i :: 0 <= i < |spans| ==> spans[i] != [])
    && (forall i :: 0 < i < |spans| ==> keep(spans[..i]))
  }

  lemma ShownSnoc(keep: seq<seq<Node>> -> bool, spans: seq<seq<Node>>, span: seq<Node>)
    requires Shown(keep, spans) && (spans == [] || keep(spans))
    ensures Flatten(spans + [span]) == Flatten(spans) + span
    ensures span != [] ==> Shown(keep, spans + [span])
    ensures span == [] ==> Flatten(spans) == Flatten(spans) + span
  {
    FlattenSnoc(spans, span);
    var longer := spans + [span];
    forall i | 0 < i < |longer| ensures keep(longer[..i]) {
      if i == |spans| {
        assert longer[..i] == spans;
      } else {
        assert longer[..i] == spans[..i];
      }
    }
  }

  // `keep` is the visitor: told every span handed over so far, it says whether to go on. That covers any
  // visitor whose answer depends on what it has been shown.
  method Walk(g: Scene, root: Node, keep: seq<seq<Node>> -> bool) returns (r: Report, spans: seq<seq<Node>>)
    requires NullHasNoKids(g)
    ensures 0 <= r.visited <= MAX_VISITED
    ensures root == 0 ==> r == Report(0, 0, 0, false, false) && spans == []
    ensures Shown(keep, spans) && (r.stopped <==> spans != [] && !keep(spans))
    ensures root != 0 ==> forall c :: c in Flatten(spans) ==> c in ToVisit(g, root)
    ensures root != 0 && Quiet(r) ==> forall c :: c in ToVisit(g, root) ==> c in Flatten(spans)
    ensures root != 0 && r.widest == 0 && IsTree(g, root) ==> NoDuplicates(Flatten(spans))
    ensures r.widest != 0 ==> |g.kids(r.widest)| == r.widestChildren > 8192 && r.widest in Reach(Cut(g), root)
    ensures |Flatten(spans)| <= r.visited
    ensures r.budgetSpent <==> !r.stopped && r.visited >= 65536
    ensures root != 0 ==> CutCovered(g, root, r, Flatten(spans))
    ensures root != 0 ==> forall S :: IsChildSet(Cut(g), root, S) ==> Counted(Cut(g), root, r, S)
    ensures IsSmallTree(g, root) && !r.stopped ==> Quiet(r)
  {
    if root == 0 {
      return Report(0, 0, 0, false, false), [];
    }
    ghost var st;
    r, spans, st := WalkFrom(g, root, keep);
    StageMeans(g, root, st);
    WalkMeans(g, root, r, st);
  }

  lemma SameMet(st: Stage)
    ensures Met(st.(full := true)) == Met(st)
  {
  }

  // What the report and the last stage of a walk say together.
  lemma WalkMeans(g: Scene, root: Node, r: Report, st: Stage)
    requires root != 0 && IsStage(g, root, st) && r.visited == Met(st) && (r.widest == 0 <==> st.full)
    requires !r.stopped && !r.budgetSpent ==> st.pending == []
    requires r.budgetSpent <==> !r.stopped && r.visited >= 65536
    requires r.widest != 0 ==> |g.kids(r.widest)| > 8192 && r.widest in st.done
    ensures CutCovered(g, root, r, st.handed)
    ensures r.widest != 0 ==> r.widest in Reach(Cut(g), root)
    ensures forall S :: IsChildSet(Cut(g), root, S) ==> Counted(Cut(g), root, r, S)
    ensures IsSmallTree(g, root) && !r.stopped ==> Quiet(r)
  {
    hide IsStage, IsTree, IsChildSet, Reach, ToVisit, NoDuplicates, Progress, Cut, Met;
    CutMeans(g, root, st);
    CutStage(g, root, st);
    StageKnows(g, root, st);
    assert Met(st.(full := true)) == Met(st) by { SameMet(st); }
    forall S | IsChildSet(Cut(g), root, S) ensures Counted(Cut(g), root, r, S) {
      if IsTree(Cut(g), root) {
        StageCounts(Cut(g), root, st.(full := true), S);
      }
    }
    if IsSmallTree(g, root) {
      assert r.widest == 0;
      var S :| IsChildSet(g, root, S) && |S| < 65536;
      StageCounts(g, root, st, S);
    }
  }

  // A walk that neither guard nor visitor ended has shown everything there is in the cut scene and nothing
  // else, wide nodes or not, and says that a node was wide exactly when one of the entities reached is.
  ghost predicate CutCovered(g: Scene, root: Node, r: Report, shown: seq<Node>) {
    && (forall c :: c in shown ==> c in ToVisit(Cut(g), root))
    && (IsTree(Cut(g), root) ==> NoDuplicates(shown))
    && (!r.stopped && !r.budgetSpent ==>
          && (forall c :: c in ToVisit(Cut(g), root) ==> c in shown)
          && (r.widest == 0 <==> NoneWide(g, Reach(Cut(g), root))))
  }

  // On a tree no more is counted than there is, and a walk that came to its end has counted all of it.
  ghost predicate Counted(g: Scene, root: Node, r: Report, S: set<Node>) {
    IsTree(g, root) ==> r.visited <= |S| && (!r.stopped && !r.budgetSpent ==> r.visited == |S|)
  }

  // Fewer children than the budget, and no node wider than the buffer.
  ghost predicate IsSmallTree(g: Scene, root: Node) {
    && root != 0 && IsTree(g, root) && NoneWide(g, Reach(g, root))
    && exists S: set<Node> :: IsChildSet(g, root, S) && |S| < 65536
  }

  // The loop of the walk, against the one-entity-at-a-time form.
  method WalkFrom(g: Scene, root: Node, keep: seq<seq<Node>> -> bool)
    returns (r: Report, spans: seq<seq<Node>>, ghost st: Stage)
    requires NullHasNoKids(g) && root != 0
    ensures 0 <= r.visited <= MAX_VISITED
    ensures Shown(keep, spans) && (r.stopped <==> spans != [] && !keep(spans))
    ensures IsStage(g, root, st)
    ensures Flatten(spans) == st.handed && (r.widest == 0 <==> st.full)
    ensures !r.stopped && !r.budgetSpent ==> st.pending == []
    ensures r.visited == Met(st) >= |st.handed|
    ensures r.budgetSpent <==> !r.stopped && r.visited >= 65536
    ensures r.widest != 0 ==> |g.kids(r.widest)| == r.widestChildren > 8192 && r.widest in st.done
  {
    hide IsStage, StageAt, Shown, Flatten;
    spans, st := [], Stage({}, [root], [], true, 0);
    NothingWalked(g, root, keep);
    var pending := [root];
    var visited, widest, widestChildren := 0, 0, 0;
    while pending != [] && visited < MAX_NODES
      invariant 0 <= visited <= MAX_VISITED
      invariant IsStage(g, root, st)
      invariant pending == st.pending && Flatten(spans) == st.handed && (widest == 0 <==> st.full)
      invariant Shown(keep, spans) && (spans == [] || keep(spans))
      invariant widest != 0 ==> |g.kids(widest)| == widestChildren > 8192 && widest in st.done
      invariant visited == Met(st) >= |st.handed|
      decreases MAX_VISITED - visited, |pending|
    {
      var e := pending[|pending| - 1];
      var count, before := |g.kids(e)|, |pending|;
      if count > MAX_CHILDREN && widest == 0 {
        widest, widestChildren := e, count;
      }
      var span;
      pending, span, st := PopAndScan(g, root, pending, st);
      visited := visited + (|pending| - (before - 1)) + |span|;
      ShownSnoc(keep, spans, span);
      spans := if span == [] then spans else spans + [span];
      if span != [] && !keep(spans) {
        return Report(visited, widest, widestChildren, false, true), spans, st;
      }
    }
    r := Report(visited, widest, widestChildren, visited >= MAX_NODES, false);
  }

  lemma NothingWalked(g: Scene, root: Node, keep: seq<seq<Node>> -> bool)
    ensures IsStage(g, root, Stage({}, [root], [], true, 0)) && Shown(keep, []) && Flatten([]) == []
  {
    assert Stage({}, [root], [], true, 0) == StageAt(g, root, 0);
  }

  // Take the top entity off the stack and look at its children: the stack grows by its inner ones.
  method PopAndScan(g: Scene, root: Node, pending: seq<Node>, ghost st: Stage)
    returns (rest: seq<Node>, span: seq<Node>, ghost st': Stage)
    requires pending == st.pending != [] && IsStage(g, root, st)
    ensures IsStage(g, root, st') && st'.pending == rest && st'.handed == st.handed + span
    ensures st'.full == (st.full && |g.kids(pending[|pending| - 1])| <= MAX_CHILDREN)
    ensures st'.turns == st.turns + 1 && st'.done == st.done + {pending[|pending| - 1]}
    ensures |pending| - 1 <= |rest| && |rest| + |span| <= |pending| - 1 + MAX_CHILDREN
  {
    ghost var n: nat :| st == StageAt(g, root, n);
    st' := StageAt(g, root, n + 1);
    var e := pending[|pending| - 1];
    rest := pending[..|pending| - 1];
    var inner;
    inner, span := ScanChildren(g, Prefix(g, e));
    rest := rest + inner;
  }

  // The inner loop: sort one buffer of children, every validated one counted once.
  method ScanChildren(g: Scene, buffer: seq<Node>) returns (inner: seq<Node>, span: seq<Node>)
    ensures inner == Inners(g, buffer) && span == Leaves(g, buffer)
    ensures |inner| + |span| <= |buffer|
  {
    inner, span := [], [];
    for k := 0 to |buffer|
      invariant inner == Inners(g, buffer[..k]) && span == Leaves(g, buffer[..k])
      invariant |inner| + |span| <= k
    {
      assert buffer[..k + 1][..k] == buffer[..k];
      var c := buffer[k];
      if g.valid(c) {
        if g.entity(c) {
          inner := inner + [c];
        } else {
          span := span + [c];
        }
      }
    }
    assert buffer[..|buffer|] == buffer;
  }

  // ---- The two ways features use it ----

  // find_first: the walk ends at the first span holding a component of the wanted type.
  method FindFirst(g: Scene, root: Node, isa: Node -> bool) returns (r: Report, found: Node)
    requires NullHasNoKids(g) && root != 0
    ensures r.stopped ==> isa(found) && found in ToVisit(g, root)
    ensures Quiet(r) ==> forall c :: c in ToVisit(g, root) ==> !isa(c)
    ensures IsSmallTree(g, root) ==> (r.stopped <==> exists c :: c in ToVisit(g, root) && isa(c))
  {
    hide ToVisit, IsTree, Flatten, NoDuplicates, IsSmallTree, CutCovered, IsChildSet, Counted, Shown, Reach, Cut;
    var spans;
    r, spans := Walk(g, root, Seeker(isa));
    found := 0;
    if r.stopped {
      var span := spans[|spans| - 1];
      SeekerStops(isa, spans);
      var k := 0;
      while !isa(span[k])
        invariant 0 <= k < |span| && forall i :: 0 <= i < k ==> !isa(span[i])
        decreases |span| - k
      {
        k := k + 1;
      }
      found := span[k];
      FlattenHas(spans, |spans| - 1, found);
    } else {
      SeekerSeesNone(isa, spans);
    }
  }

  predicate HasType(isa: Node -> bool, span: seq<Node>) {
    exists k :: 0 <= k < |span| && isa(span[k])
  }

  // The visitor of find_first.
  function Seeker(isa: Node -> bool): seq<seq<Node>> -> bool {
    shown => shown == [] || !HasType(isa, shown[|shown| - 1])
  }

  lemma SeekerStops(isa: Node -> bool, spans: seq<seq<Node>>)
    requires spans != [] && !Seeker(isa)(spans)
    ensures HasType(isa, spans[|spans| - 1])
  {
  }

  lemma SeekerSeesNone(isa: Node -> bool, spans: seq<seq<Node>>)
    requires Shown(Seeker(isa), spans) && (spans == [] || Seeker(isa)(spans))
    ensures forall c :: c in Flatten(spans) ==> !isa(c)
  {
    forall i | 0 <= i < |spans| ensures !HasType(isa, spans[i]) {
      if i + 1 < |spans| {
        assert Seeker(isa)(spans[..i + 1]);
      }
    }
    hide *;
    NoneFlattened(isa, spans);
  }

  lemma NoneFlattened(isa: Node -> bool, spans: seq<seq<Node>>)
    requires forall i :: 0 <= i < |spans| ==> !HasType(isa, spans[i])
    ensures forall c :: c in Flatten(spans) ==> !isa(c)
  {
    forall c | c in Flatten(spans) ensures !isa(c) {
      var i := FlattenFrom(spans, c);
      hide Flatten;
      assert !HasType(isa, spans[i]);
    }
  }

  lemma {:induction false} FlattenHas(spans: seq<seq<Node>>, i: nat, c: Node)
    requires i < |spans| && c in spans[i]
    ensures c in Flatten(spans)
  {
    if i < |spans| - 1 {
      FlattenHas(spans[..|spans| - 1], i, c);
    }
  }

  lemma {:induction false} FlattenFrom(spans: seq<seq<Node>>, c: Node) returns (i: nat)
    requires c in Flatten(spans)
    ensures i < |spans| && c in spans[i]
  {
    if c in spans[|spans| - 1] {
      i := |spans| - 1;
    } else {
      i := FlattenFrom(spans[..|spans| - 1], c);
    }
  }

  // for_each: every component of the type is met, each as often as it was handed over, in order.
  function OfType(isa: Node -> bool, shown: seq<Node>): (r: seq<Node>)
    ensures forall c :: c in r <==> c in shown && isa(c)
    ensures NoDuplicates(shown) ==> NoDuplicates(r)
  {
    if shown == [] then []
    else
      var r := OfType(isa, shown[..|shown| - 1]);
      var c := shown[|shown| - 1];
      if isa(c) then r + [c] else r
  }

  method ForEach(g: Scene, root: Node, isa: Node -> bool) returns (r: Report, called: seq<Node>)
    requires NullHasNoKids(g) && root != 0
    ensures !r.stopped
    ensures forall c :: c in called ==> isa(c) && c in ToVisit(g, root)
    ensures Quiet(r) ==> forall c :: c in ToVisit(g, root) && isa(c) ==> c in called
    ensures Quiet(r) && IsTree(g, root) ==> NoDuplicates(called)
    ensures IsSmallTree(g, root) ==> Quiet(r)
  {
    hide ToVisit, IsTree, IsSmallTree, CutCovered, IsChildSet, Counted, Shown, Reach, Cut;
    var spans;
    r, spans := Walk(g, root, _ => true);
    called := [];
    for i := 0 to |spans|
      invariant called == OfType(isa, Flatten(spans[..i]))
    {
      assert spans[..i + 1] == spans[..i] + [spans[i]];
      FlattenSnoc(spans[..i], spans[i]);
      called := AppendOfType(isa, called, Flatten(spans[..i]), spans[i]);
    }
    assert spans[..|spans|] == spans;
  }

  method AppendOfType(isa: Node -> bool, called: seq<Node>, ghost base: seq<Node>, span: seq<Node>)
    returns (r: seq<Node>)
    requires called == OfType(isa, base)
    ensures r == OfType(isa, base + span)
  {
    r := called;
    assert base + span[..0] == base;
    for k := 0 to |span|
      invariant r == OfType(isa, base + span[..k])
    {
      assert base + span[..k + 1] == (base + span[..k]) + [span[k]];
      OfTypeSnoc(isa, base + span[..k], span[k]);
      hide OfType;
      if isa(span[k]) {
        r := r + [span[k]];
      }
    }
    assert base + span[..|span|] == base + span;
  }

  lemma OfTypeSnoc(isa: Node -> bool, shown: seq<Node>, c: Node)
    ensures OfType(isa, shown + [c]) == OfType(isa, shown) + (if isa(c) then [c] else [])
  {
    assert (shown + [c])[..|shown|] == shown;
  }
}
