/**
  The broad-phase query: for one body, a depth-first walk of the tree with an
  explicit stack. The root is pushed unconditionally; after an internal node
  is popped its left child and then its right child are pushed, each only if
  its box passes the overlap test against the body's rectangle. Every popped
  leaf whose index differs from the querying body's is a candidate handed to
  narrow-phase collision handling.
 */
module BroadPhase {
  import opened Geometry
  import opened Bvh
  import opened Arith

  /**
    Reference definition of the nodes popped when the walk starts from `n`,
    in pop order: `n` first, then the right child's walk (pushed last, so
    popped first), then the left child's, each only if its box overlaps `q`.
   */
  function Walk(n: Tree, q: Rect): (w: seq<Tree>)
    ensures 1 <= |w| <= Size(n)
    ensures w[0] == n
    ensures forall k :: 1 <= k < |w| ==> Overlaps(q, w[k].box)
    decreases n
  {
    match n
    case Leaf(_, _) => [n]
    case Node(_, l, r) =>
      [n] + (if Overlaps(q, r.box) then Walk(r, q) else [])
          + (if Overlaps(q, l.box) then Walk(l, q) else [])
  }

  /**
    The indices handed to collision handling by a sequence of popped nodes:
    the popped leaves whose index is not the querying body's `i`.
   */
  function CandidatesIn(popped: seq<Tree>, i: int): (c: seq<int>)
    ensures forall x :: x in popped && x.Leaf? && x.indx != i ==> x.indx in c
    ensures forall k :: k in c ==> k != i && exists x :: x in popped && x.Leaf? && x.indx == k
    ensures |c| <= |popped|
  {
    if |popped| == 0 then []
    else
      var last := popped[|popped| - 1];
      CandidatesIn(popped[..|popped| - 1], i)
        + (if last.Leaf? && last.indx != i then [last.indx] else [])
  }

  /** The walks still owed by a stack whose top is its last element, top first. */
  function StackWalk(stack: seq<Tree>, q: Rect): seq<Tree> {
    if |stack| == 0 then []
    else Walk(stack[|stack| - 1], q) + StackWalk(stack[..|stack| - 1], q)
  }

  /** Total number of nodes in the subtrees held by a stack. */
  function StackSize(stack: seq<Tree>): nat {
    if |stack| == 0 then 0
    else Size(stack[|stack| - 1]) + StackSize(stack[..|stack| - 1])
  }

  lemma PushUnfolds(stack: seq<Tree>, x: Tree, q: Rect)
    ensures StackWalk(stack + [x], q) == Walk(x, q) + StackWalk(stack, q)
    ensures StackSize(stack + [x]) == Size(x) + StackSize(stack)
  {
    assert (stack + [x])[..|stack|] == stack;
  }

  /** The children pushed after `top` is popped, in push order. */
  function Pushed(top: Tree, q: Rect): seq<Tree> {
    match top
    case Leaf(_, _) => []
    case Node(_, l, r) =>
      (if Overlaps(q, l.box) then [l] else []) + (if Overlaps(q, r.box) then [r] else [])
  }

  /** Pushing two subtrees owes the later one's walk first. */
  lemma PushTwo(rest: seq<Tree>, l: Tree, r: Tree, q: Rect)
    ensures StackWalk(rest + ([l] + [r]), q) == Walk(r, q) + (Walk(l, q) + StackWalk(rest, q))
  {
    Concat(rest, [l], [r]);
    PushUnfolds(rest + [l], r, q);
    PushUnfolds(rest, l, q);
  }

  /** The walk owed once `top` itself has been popped: its pushed children's walks, last pushed first. */
  function Owed(top: Tree, q: Rect): seq<Tree> {
    match top
    case Leaf(_, _) => []
    case Node(_, l, r) =>
      (if Overlaps(q, r.box) then Walk(r, q) else []) + (if Overlaps(q, l.box) then Walk(l, q) else [])
  }

  /** Popping `top` and pushing its children leaves exactly the rest of `top`'s walk owed. */
  lemma PopStep(rest: seq<Tree>, top: Tree, q: Rect)
    ensures StackWalk(rest + Pushed(top, q), q) == Owed(top, q) + StackWalk(rest, q)
  {
    match top
    case Leaf(_, _) =>
      Concat(rest, [], []);
    case Node(_, l, r) =>
      var ol, or := Overlaps(q, l.box), Overlaps(q, r.box);
      if ol && or {
        PushTwo(rest, l, r, q);
        Concat(Walk(r, q), Walk(l, q), StackWalk(rest, q));
      } else if ol {
        Concat([l], [], []);
        Concat([], Walk(l, q), []);
        PushUnfolds(rest, l, q);
      } else if or {
        Concat([], [r], []);
        Concat(Walk(r, q), [], []);
        PushUnfolds(rest, r, q);
      } else {
        Concat(rest, [], []);
        Concat([], [], StackWalk(rest, q));
      }
  }

  lemma SplitLast<T>(s: seq<T>)
    requires |s| > 0
    ensures s == s[..|s| - 1] + [s[|s| - 1]]
  {
  }

  /** Two conditional pushes append the pushed elements in order. */
  lemma PushBoth<T>(rest: seq<T>, a: T, b: T, pa: bool, pb: bool)
    ensures (var s1 := if pa then rest + [a] else rest; if pb then s1 + [b] else s1)
      == rest + ((if pa then [a] else []) + (if pb then [b] else []))
  {
  }

  /** Concatenation is associative and has the empty sequence as unit. */
  lemma Concat<T>(a: seq<T>, b: seq<T>, c: seq<T>)
    ensures (a + b) + c == a + (b + c)
    ensures a + [] == a && [] + a == a
  {
  }

  /** Popping `top` and pushing its children shrinks the nodes held by the stack. */
  lemma PopShrinks(rest: seq<Tree>, top: Tree, q: Rect)
    ensures StackSize(rest + Pushed(top, q)) < Size(top) + StackSize(rest)
  {
    match top
    case Leaf(_, _) =>
      assert rest + Pushed(top, q) == rest;
    case Node(_, l, r) =>
      var ol, or := Overlaps(q, l.box), Overlaps(q, r.box);
      if ol && or {
        assert rest + Pushed(top, q) == (rest + [l]) + [r];
        PushUnfolds(rest + [l], r, q);
        PushUnfolds(rest, l, q);
      } else if ol {
        assert rest + Pushed(top, q) == rest + [l];
        PushUnfolds(rest, l, q);
      } else if or {
        assert rest + Pushed(top, q) == rest + [r];
        PushUnfolds(rest, r, q);
      } else {
        assert rest + Pushed(top, q) == rest;
      }
  }

  /** The loop invariant survives one pop: the popped prefix grows by `top`, the owed walk loses it. */
  lemma PopKeepsSplit(popped: seq<Tree>, top: Tree, rest: seq<Tree>, q: Rect)
    ensures (popped + [top]) + StackWalk(rest + Pushed(top, q), q) == popped + StackWalk(rest + [top], q)
  {
    PopStep(rest, top, q);
    PushUnfolds(rest, top, q);
    WalkUnfold(top, q);
    Regroup(popped, top, Owed(top, q), StackWalk(rest, q));
  }

  lemma WalkUnfold(top: Tree, q: Rect)
    ensures Walk(top, q) == [top] + Owed(top, q)
  {
    match top
    case Leaf(_, _) =>
      Concat([top], [], []);
    case Node(_, l, r) =>
      Concat([top], if Overlaps(q, r.box) then Walk(r, q) else [], if Overlaps(q, l.box) then Walk(l, q) else []);
  }

  lemma Regroup<T>(a: seq<T>, x: T, b: seq<T>, c: seq<T>)
    ensures (a + [x]) + (b + c) == a + (([x] + b) + c)
  {
  }

  /** Records one more popped node: it is handed over exactly when it is a leaf other than `i`. */
  lemma PopRecords(popped: seq<Tree>, top: Tree, i: int)
    ensures CandidatesIn(popped + [top], i)
      == CandidatesIn(popped, i) + (if top.Leaf? && top.indx != i then [top.indx] else [])
  {
    assert (popped + [top])[..|popped|] == popped;
  }

  /**
    One broad-phase query for body `i` with rectangle `q` on a non-empty tree.
    `checks` is the number of pops, the driver's `num_checks` increment for
    this body; `candidates` are the indices handed to collision handling, in
    the order they are popped.
   */
  method Query(t: Tree, i: int, q: Rect) returns (candidates: seq<int>, checks: nat)
    ensures checks == |Walk(t, q)| && candidates == CandidatesIn(Walk(t, q), i)
    ensures checks <= Size(t) == 2 * |LeavesOf(t)| - 1
    ensures i !in candidates
    ensures forall k :: k in candidates ==> OverlappingLeafIndex(t, q, k)
    ensures t.Leaf? ==> checks == 1 && candidates == (if t.indx != i then [t.indx] else [])
    ensures WellNested(t) ==>
      forall l :: l in LeavesOf(t) && Overlaps(q, l.box) && l.indx != i ==> l.indx in candidates
  {
    var stack := [t];
    candidates := [];
    checks := 0;
    ghost var popped: seq<Tree> := [];
    PushUnfolds([], t, q);
    assert [] + [t] == stack;
    while |stack| > 0
      invariant popped + StackWalk(stack, q) == Walk(t, q)
      invariant checks == |popped|
      invariant candidates == CandidatesIn(popped, i)
      decreases StackSize(stack)
    {
      ghost var before := stack;
      var top := stack[|stack| - 1];
      stack := stack[..|stack| - 1];
      ghost var rest := stack;
      SplitLast(before);
      checks := checks + 1;
      if top.Leaf? {
        if top.indx != i {
          candidates := candidates + [top.indx];
        }
        Concat(rest, [], []);
      } else {
        if Overlaps(q, top.left.box) {
          stack := stack + [top.left];
        }
        if Overlaps(q, top.right.box) {
          stack := stack + [top.right];
        }
        PushBoth(rest, top.left, top.right, Overlaps(q, top.left.box), Overlaps(q, top.right.box));
      }
      PushUnfolds(rest, top, q);
      PopShrinks(rest, top, q);
      PopKeepsSplit(popped, top, rest, q);
      PopRecords(popped, top, i);
      popped := popped + [top];
    }
    assert popped == Walk(t, q);
    QueryOutcome(t, i, q);
    LeafCount(t);
  }

  /**
    `k` is the index of a leaf of `t` whose box overlaps the query rectangle
    `q`, or of a root leaf, which is handed over untested.
   */
  predicate OverlappingLeafIndex(t: Tree, q: Rect, k: int) {
    exists l :: l in LeavesOf(t) && l.indx == k && (t.Leaf? || Overlaps(q, l.box))
  }

  /** What the walk hands to collision handling, stated without the walk. */
  lemma QueryOutcome(t: Tree, i: int, q: Rect)
    ensures i !in CandidatesIn(Walk(t, q), i)
    ensures forall k :: k in CandidatesIn(Walk(t, q), i) ==> OverlappingLeafIndex(t, q, k)
    ensures t.Leaf? ==> CandidatesIn(Walk(t, q), i) == (if t.indx != i then [t.indx] else [])
    ensures WellNested(t) ==>
      forall l :: l in LeavesOf(t) && Overlaps(q, l.box) && l.indx != i ==> l.indx in CandidatesIn(Walk(t, q), i)
  {
    forall k | k in CandidatesIn(Walk(t, q), i)
      ensures OverlappingLeafIndex(t, q, k)
    {
      var x :| x in Walk(t, q) && x.Leaf? && x.indx == k;
      WalkSound(t, q, x);
    }
    if t.Leaf? {
      assert Walk(t, q) == [t];
      assert [t][..0] == [];
    }
    if WellNested(t) {
      forall l | l in LeavesOf(t) && Overlaps(q, l.box) && l.indx != i
        ensures l.indx in CandidatesIn(Walk(t, q), i)
      {
        WalkComplete(t, q, l);
      }
    }
  }

  /**
    Pruning loses nothing in a well-nested tree: every leaf whose box
    overlaps the query rectangle is popped.
   */
  lemma {:induction false} WalkComplete(n: Tree, q: Rect, l: Tree)
    requires WellNested(n) && l in LeavesOf(n) && Overlaps(q, l.box)
    ensures l in Walk(n, q)
    decreases n
  {
    match n
    case Leaf(_, _) =>
    case Node(_, left, right) =>
      if l in LeavesOf(left) {
        LeafInsideAncestors(left, l);
        OverlapsContainer(q, left.box, l.box);
        WalkComplete(left, q, l);
      } else {
        LeafInsideAncestors(right, l);
        OverlapsContainer(q, right.box, l.box);
        WalkComplete(right, q, l);
      }
  }

  /**
    The walk pops nothing foreign: every popped leaf is a leaf of the tree,
    and its box overlaps the query rectangle unless it is a root leaf,
    which is popped without a test.
   */
  lemma {:induction false} WalkSound(n: Tree, q: Rect, x: Tree)
    requires x in Walk(n, q) && x.Leaf?
    ensures x in LeavesOf(n) && (n.Leaf? || Overlaps(q, x.box))
    decreases n
  {
    match n
    case Leaf(_, _) =>
    case Node(_, l, r) =>
      WalkUnfold(n, q);
      assert x != n;
      if Overlaps(q, r.box) && x in Walk(r, q) {
        WalkSound(r, q, x);
        if r.Leaf? {
          assert LeavesOf(r) == [r];
        }
      } else {
        assert Overlaps(q, l.box) && x in Walk(l, q);
        WalkSound(l, q, x);
        if l.Leaf? {
          assert LeavesOf(l) == [l];
        }
      }
  }

  /**
    The per-tick broad phase: body `i` (rectangle `rects[i]`) queries the
    tree in index order, and each candidate `j` it obtains becomes the pair
    `(i, j)` handed to narrow-phase handling. Collision handling changes
    velocities and accelerations, never rectangles, so every query sees the same tree and
    rectangles. `checks` totals the pops of all queries.
   */
  method AllPairs(t: Tree, rects: seq<Rect>) returns (pairs: seq<(int, int)>, checks: nat)
    ensures checks <= |rects| * Size(t)
    ensures PairsSound(t, rects, pairs, |rects|)
    ensures WellNested(t) ==>
      forall i, l :: 0 <= i < |rects| && l in LeavesOf(t) && Overlaps(rects[i], l.box) && l.indx != i
        ==> (i, l.indx) in pairs
  {
    pairs := [];
    checks := 0;
    var i := 0;
    while i < |rects|
      invariant 0 <= i <= |rects|
      invariant checks <= i * Size(t)
      invariant PairsSound(t, rects, pairs, i)
      invariant WellNested(t) ==>
        forall i', l :: 0 <= i' < i && l in LeavesOf(t) && Overlaps(rects[i'], l.box) && l.indx != i'
          ==> (i', l.indx) in pairs
    {
      var candidates, n := Query(t, i, rects[i]);
      PairsSoundAppend(t, rects, pairs, i, candidates);
      pairs := pairs + PairsFor(i, candidates);
      MulSucc(i, Size(t));
      checks := checks + n;
      i := i + 1;
    }
  }

  /**
    Every pair joins a body `p.0` below `n` with a different index `p.1`
    naming a leaf whose box overlaps the body's rectangle, or a root leaf.
   */
  predicate PairsSound(t: Tree, rects: seq<Rect>, pairs: seq<(int, int)>, n: int)
    requires n <= |rects|
  {
    forall p :: p in pairs ==>
      0 <= p.0 < n && p.0 != p.1 && OverlappingLeafIndex(t, rects[p.0], p.1)
  }

  /** Appending the pairs of one more query keeps every pair sound. */
  lemma PairsSoundAppend(t: Tree, rects: seq<Rect>, pairs: seq<(int, int)>, i: int, candidates: seq<int>)
    requires 0 <= i < |rects| && PairsSound(t, rects, pairs, i)
    requires forall k :: k in candidates ==> k != i && OverlappingLeafIndex(t, rects[i], k)
    ensures PairsSound(t, rects, pairs + PairsFor(i, candidates), i + 1)
  {
    forall p | p in pairs + PairsFor(i, candidates)
      ensures 0 <= p.0 < i + 1 && p.0 != p.1 && OverlappingLeafIndex(t, rects[p.0], p.1)
    {
      if p !in pairs {
        assert p in PairsFor(i, candidates);
      }
    }
  }

  /** The pairs `(i, c)` for the candidates `c` of body `i`, in order. */
  function PairsFor(i: int, candidates: seq<int>): (ps: seq<(int, int)>)
    ensures forall c :: c in candidates ==> (i, c) in ps
    ensures forall p :: p in ps ==> p.0 == i && p.1 in candidates
  {
    if |candidates| == 0 then []
    else [(i, candidates[0])] + PairsFor(i, candidates[1..])
  }
}
