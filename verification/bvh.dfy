/**
  The bounding-volume tree as the broad-phase loop reads it. A node is either
  a leaf, holding the index of a body and the leaf's bounding box, or an
  internal node, holding its bounding box and exactly two children. A node's
  parent is the internal node that encloses it; the root has none.
 */
module Bvh {
  import opened Geometry

  datatype Tree =
    | Leaf(indx: int, box: Box)
    | Node(box: Box, left: Tree, right: Tree)

  /** Number of nodes, leaves and internal nodes alike. */
  function Size(t: Tree): nat {
    match t
    case Leaf(_, _) => 1
    case Node(_, l, r) => 1 + Size(l) + Size(r)
  }

  /** The leaves of `t`, left to right. */
  function LeavesOf(t: Tree): (ls: seq<Tree>)
    ensures forall l :: l in ls ==> l.Leaf?
  {
    match t
    case Leaf(_, _) => [t]
    case Node(_, l, r) => LeavesOf(l) + LeavesOf(r)
  }

  /**
    Every internal box contains both of its children's boxes. A tree whose
    internal boxes are the unions of their children's boxes satisfies it; it
    is the weaker fact the query needs.
   */
  predicate WellNested(t: Tree) {
    match t
    case Leaf(_, _) => true
    case Node(b, l, r) =>
      Contains(b, l.box) && Contains(b, r.box) && WellNested(l) && WellNested(r)
  }

  /** A leaf seen from the flat list of leaves, with its parent's box if it has one. */
  datatype Slot = Slot(indx: int, box: Box, parent: Option<Box>)

  datatype Option<T> = None | Some(value: T)

  /** The leaves of `t`, left to right, each with the box of the node enclosing it. */
  function LeafSlots(t: Tree, parent: Option<Box>): seq<Slot> {
    match t
    case Leaf(k, b) => [Slot(k, b, parent)]
    case Node(b, l, r) => LeafSlots(l, Some(b)) + LeafSlots(r, Some(b))
  }

  /** A leaf's box lies within the box of every node above it in a well-nested tree. */
  lemma {:induction false} LeafInsideAncestors(t: Tree, l: Tree)
    requires WellNested(t) && l in LeavesOf(t)
    ensures Contains(t.box, l.box)
  {
    match t
    case Leaf(_, _) =>
    case Node(b, left, right) =>
      if l in LeavesOf(left) {
        LeafInsideAncestors(left, l);
        ContainsTransitive(b, left.box, l.box);
      } else {
        LeafInsideAncestors(right, l);
        ContainsTransitive(b, right.box, l.box);
      }
  }

  /** A tree has one more leaf than it has internal nodes. */
  lemma {:induction false} LeafCount(t: Tree)
    ensures 2 * |LeavesOf(t)| == Size(t) + 1
  {
    match t
    case Leaf(_, _) =>
    case Node(_, l, r) =>
      LeafCount(l);
      LeafCount(r);
  }
}
