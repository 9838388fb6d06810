/**
  The per-tick refresh pass over the leaves. A leaf that has a parent is
  queued for removal and reinsertion when its body's rectangle has drifted
  out of the parent's box; otherwise only the leaf's own box is replaced by
  the body's rectangle, and no ancestor box is touched. A root leaf, having
  no parent, is skipped altogether. The drift test carries a margin `m`:
  one driver tests with `m == 0`, the other with `m == 1`.
 */
module Drift {
  import opened Geometry
  import opened Bvh

  /** The margin of the optimised driver's drift test. */
  const TightMargin := 0

  /** The margin of the library-backed driver's drift test. */
  const OneUnitMargin := 1

  /** A body as the pass reads it: its current rectangle and its radius. */
  datatype Body = Body(rect: Rect, radius: int)

  /** The drift test against the parent's box, written as the driver writes it. */
  predicate Drifted(b: Body, parent: Box, m: int) {
    || b.rect.x + b.rect.w - 2 * b.radius - m < parent.lo.x
    || b.rect.x + 2 * b.radius + m > parent.hi.x
    || b.rect.y + b.rect.h - 2 * b.radius - m < parent.lo.y
    || b.rect.y + 2 * b.radius + m > parent.hi.y
  }

  /** A circle's rectangle: both sides are its diameter. */
  predicate Round(b: Body) {
    b.rect.w == 2 * b.radius && b.rect.h == 2 * b.radius
  }

  /**
    For a circle, the drift test says exactly that the rectangle, grown by
    the margin on every side, is not contained in the parent's box.
   */
  lemma DriftedIffEscapes(b: Body, parent: Box, m: int)
    requires Round(b)
    ensures Drifted(b, parent, m) <==> !Contains(parent, RectBox(Grow(b.rect, m)))
  {
  }

  /** With the tight margin the test is plain containment of the circle's rectangle, edges allowed. */
  lemma TightMarginMeansContainment(b: Body, parent: Box)
    requires Round(b)
    ensures Drifted(b, parent, TightMargin) <==> !Contains(parent, RectBox(b.rect))
  {
    DriftedIffEscapes(b, parent, TightMargin);
    assert Grow(b.rect, TightMargin) == b.rect;
  }

  /** A wider margin queues at least the leaves a narrower one does. */
  lemma WiderMarginQueuesMore(b: Body, parent: Box, m: int, m': int)
    requires m <= m' && Drifted(b, parent, m)
    ensures Drifted(b, parent, m')
  {
  }

  /** Every leaf that has a parent names a body. */
  predicate IndexedBelow(slots: seq<Slot>, n: int) {
    forall s :: s in slots && s.parent.Some? ==> 0 <= s.indx < n
  }

  /** The refresh rule for one leaf, given its parent's box if it has one. */
  function RefreshSlot(s: Slot, bodies: seq<Body>, m: int): Slot
    requires s.parent.Some? ==> 0 <= s.indx < |bodies|
  {
    if s.parent.Some? && !Drifted(bodies[s.indx], s.parent.value, m)
    then s.(box := RectBox(bodies[s.indx].rect))
    else s
  }

  /** The refresh rule applied to each leaf of a flat list. */
  function RefreshSlots(slots: seq<Slot>, bodies: seq<Body>, m: int): (r: seq<Slot>)
    requires IndexedBelow(slots, |bodies|)
    ensures |r| == |slots|
  {
    if |slots| == 0 then []
    else [RefreshSlot(slots[0], bodies, m)] + RefreshSlots(slots[1..], bodies, m)
  }

  /** The indices of the listed leaves that have a parent and have drifted out of it, in order. */
  function QueueOf(slots: seq<Slot>, bodies: seq<Body>, m: int): seq<int>
    requires IndexedBelow(slots, |bodies|)
  {
    if |slots| == 0 then []
    else
      var s := slots[0];
      (if s.parent.Some? && Drifted(bodies[s.indx], s.parent.value, m) then [s.indx] else [])
        + QueueOf(slots[1..], bodies, m)
  }

  lemma {:induction false} RefreshSlotsConcat(a: seq<Slot>, b: seq<Slot>, bodies: seq<Body>, m: int)
    requires IndexedBelow(a, |bodies|) && IndexedBelow(b, |bodies|)
    ensures RefreshSlots(a + b, bodies, m) == RefreshSlots(a, bodies, m) + RefreshSlots(b, bodies, m)
    decreases |a|
  {
    if |a| == 0 {
      assert a + b == b;
    } else {
      assert (a + b)[1..] == a[1..] + b;
      RefreshSlotsConcat(a[1..], b, bodies, m);
    }
  }

  lemma {:induction false} QueueConcat(a: seq<Slot>, b: seq<Slot>, bodies: seq<Body>, m: int)
    requires IndexedBelow(a, |bodies|) && IndexedBelow(b, |bodies|)
    ensures QueueOf(a + b, bodies, m) == QueueOf(a, bodies, m) + QueueOf(b, bodies, m)
    decreases |a|
  {
    if |a| == 0 {
      assert a + b == b;
    } else {
      assert (a + b)[1..] == a[1..] + b;
      QueueConcat(a[1..], b, bodies, m);
    }
  }

  /** The tree and the queue the pass produces. */
  datatype Refreshed = Refreshed(tree: Tree, queued: seq<int>)

  /** Same shape, same leaf indices and same internal boxes; only leaf boxes may differ. */
  predicate SameButLeafBoxes(a: Tree, b: Tree) {
    match a
    case Leaf(k, _) => b.Leaf? && b.indx == k
    case Node(box, l, r) => b.Node? && b.box == box && SameButLeafBoxes(l, b.left) && SameButLeafBoxes(r, b.right)
  }

  /**
    The refresh pass over the subtree `t`, whose enclosing node has box
    `parent` (`None` for the root). Internal boxes are only read, so the
    order in which leaves are visited does not matter.
   */
  function RefreshFrom(t: Tree, parent: Option<Box>, bodies: seq<Body>, m: int): (r: Refreshed)
    requires IndexedBelow(LeafSlots(t, parent), |bodies|)
    ensures SameButLeafBoxes(t, r.tree)
    ensures LeafSlots(r.tree, parent) == RefreshSlots(LeafSlots(t, parent), bodies, m)
    ensures r.queued == QueueOf(LeafSlots(t, parent), bodies, m)
    decreases t
  {
    match t
    case Leaf(k, b) =>
      if parent.None? then Refreshed(t, [])
      else if Drifted(bodies[k], parent.value, m) then Refreshed(t, [k])
      else Refreshed(Leaf(k, RectBox(bodies[k].rect)), [])
    case Node(b, l, r) =>
      var rl := RefreshFrom(l, Some(b), bodies, m);
      var rr := RefreshFrom(r, Some(b), bodies, m);
      RefreshSlotsConcat(LeafSlots(l, Some(b)), LeafSlots(r, Some(b)), bodies, m);
      QueueConcat(LeafSlots(l, Some(b)), LeafSlots(r, Some(b)), bodies, m);
      Refreshed(Node(b, rl.tree, rr.tree), rl.queued + rr.queued)
  }

  /** The pass over a whole tree. */
  function Refresh(t: Tree, bodies: seq<Body>, m: int): (r: Refreshed)
    requires IndexedBelow(LeafSlots(t, None), |bodies|)
    ensures SameButLeafBoxes(t, r.tree)
    ensures t.Leaf? ==> r == Refreshed(t, [])
  {
    RefreshFrom(t, None, bodies, m)
  }

  /** Every body is a circle: both sides of its rectangle are its diameter. */
  predicate RoundBodies(bodies: seq<Body>) {
    forall k :: 0 <= k < |bodies| ==> Round(bodies[k])
  }

  lemma {:induction false} QueueMembers(slots: seq<Slot>, bodies: seq<Body>, m: int, k: int)
    requires IndexedBelow(slots, |bodies|)
    ensures k in QueueOf(slots, bodies, m) <==>
      exists s :: s in slots && s.parent.Some? && s.indx == k && Drifted(bodies[k], s.parent.value, m)
    decreases |slots|
  {
    if |slots| > 0 {
      QueueMembers(slots[1..], bodies, m, k);
      assert slots == [slots[0]] + slots[1..];
      if k in QueueOf(slots[1..], bodies, m) {
        var s :| s in slots[1..] && s.parent.Some? && s.indx == k && Drifted(bodies[k], s.parent.value, m);
        assert s in slots;
      }
    }
  }

  /**
    A body is queued for reinsertion exactly when one of its leaves has a
    parent and the body's circle, grown by the margin, is not contained in
    that parent's box. A root leaf has no parent, so a one-leaf tree queues
    nothing.
   */
  lemma QueuedExactlyEscapees(t: Tree, bodies: seq<Body>, m: int, k: int)
    requires IndexedBelow(LeafSlots(t, None), |bodies|) && RoundBodies(bodies)
    ensures k in Refresh(t, bodies, m).queued <==>
      exists s :: s in LeafSlots(t, None) && s.parent.Some? && s.indx == k
        && !Contains(s.parent.value, RectBox(Grow(bodies[k].rect, m)))
  {
    QueueMembers(LeafSlots(t, None), bodies, m, k);
    if k in Refresh(t, bodies, m).queued {
      var s :| s in LeafSlots(t, None) && s.parent.Some? && s.indx == k && Drifted(bodies[k], s.parent.value, m);
      DriftedIffEscapes(bodies[k], s.parent.value, m);
    }
    if exists s :: s in LeafSlots(t, None) && s.parent.Some? && s.indx == k
        && !Contains(s.parent.value, RectBox(Grow(bodies[k].rect, m))) {
      var s :| s in LeafSlots(t, None) && s.parent.Some? && s.indx == k
        && !Contains(s.parent.value, RectBox(Grow(bodies[k].rect, m)));
      DriftedIffEscapes(bodies[k], s.parent.value, m);
    }
  }

  /**
    A leaf that stays gets exactly its body's rectangle as its box, and with
    a non-negative margin that box lies inside the parent's box.
   */
  lemma StayingLeafInsideParent(s: Slot, bodies: seq<Body>, m: int)
    requires s.parent.Some? && 0 <= s.indx < |bodies| && Round(bodies[s.indx]) && 0 <= m
    requires !Drifted(bodies[s.indx], s.parent.value, m)
    ensures RefreshSlot(s, bodies, m) == s.(box := RectBox(bodies[s.indx].rect))
    ensures Contains(s.parent.value, RefreshSlot(s, bodies, m).box)
  {
  }

  /** The box of a refreshed subtree stays inside its parent's box. */
  lemma RefreshedBoxInside(c: Tree, p: Box, bodies: seq<Body>, m: int)
    requires IndexedBelow(LeafSlots(c, Some(p)), |bodies|) && RoundBodies(bodies) && 0 <= m
    requires Contains(p, c.box)
    ensures Contains(p, RefreshFrom(c, Some(p), bodies, m).tree.box)
  {
    match c
    case Leaf(k, _) =>
      assert Slot(k, c.box, Some(p)) in LeafSlots(c, Some(p));
    case Node(_, _, _) =>
  }

  /**
    The pass keeps every internal box around its children's boxes: leaves
    that stay get a box inside their unchanged parent box, and leaves that
    are queued keep their old box.
   */
  lemma {:induction false} RefreshKeepsNesting(t: Tree, parent: Option<Box>, bodies: seq<Body>, m: int)
    requires IndexedBelow(LeafSlots(t, parent), |bodies|) && RoundBodies(bodies) && 0 <= m
    requires WellNested(t)
    ensures WellNested(RefreshFrom(t, parent, bodies, m).tree)
    decreases t
  {
    match t
    case Leaf(_, _) =>
    case Node(b, l, r) =>
      RefreshKeepsNesting(l, Some(b), bodies, m);
      RefreshKeepsNesting(r, Some(b), bodies, m);
      RefreshedBoxInside(l, b, bodies, m);
      RefreshedBoxInside(r, b, bodies, m);
  }
}
