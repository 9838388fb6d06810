# Broad phase of a dynamic AABB tree, in Dafny

This project models the integer broad-phase logic of an AABB-tree collision
demo. Bodies are circles. Each body has a screen rectangle (`rect`) and an
index. A binary tree of axis-aligned bounding boxes (AABBs) holds one leaf
per body. The model covers four pieces of logic that the optimised driver
(`aabb_opt_debug.py`) writes inline. The spawn arithmetic runs once, before
the main loop. The other three run on every tick:

1. **Overlap test.** A body's rectangle is tested against a node's box
   (`_lower_bound` / `_upper_bound`). The test uses closed intervals, so
   touching edges count as overlapping (`Geometry.Overlaps`).
2. **Broad-phase query.** A depth-first walk with an explicit stack
   (`BroadPhase.Query`), run once per body (`BroadPhase.AllPairs`).
   - The root is pushed without any test.
   - A child is pushed only if its box overlaps the querying body's rectangle.
   - Every popped leaf whose index differs from the querying body's index
     becomes a candidate for narrow-phase collision handling.
   - `checks` counts the pops, like the driver's `num_checks`.
3. **Drift and reinsertion rule** (`Drift.Refresh`). A leaf that has a
   parent is queued for remove-and-reinsert when its body has drifted out
   of the parent's box. Otherwise only the leaf's own box is replaced by
   the body's rectangle, and no ancestor box is refitted. The drift test
   takes a margin `m`:
   - `m = 0` in the optimised driver (`TightMargin`);
   - `m = 1` in the library-backed driver (`OneUnitMargin`).
4. **Grid spawn arithmetic** (`SpawnGrid.Spawn`, `SpawnGrid.FillGrid`).
   - It computes how many cells of pitch `2*max_radius + spacing` fit on
     the 1280x720 screen.
   - It refuses a request for more bodies than there are cells.
   - It places the bodies row by row, with sequential indices.
   - Each body draws its radius from `min_radius..max_radius`. When that
     range is empty, creating the first body fails, and the model returns
     the error `EmptyRadiusRange`.

The tree is the value type `Leaf(indx, box) | Node(box, left, right)`
(module `Bvh`). A node's parent is the `Node` that encloses it. The driver
loops over the tree's node list in an unknown order. The refresh pass only
reads internal boxes and only writes leaf boxes, so that order does not
change the resulting tree. The model lists queued leaves from left to
right. Coordinates are `int`. Python's `int(a / b)` truncates toward zero
for either sign of dividend and divisor. Dafny's `/` does not, so
`SpawnGrid.TruncDiv` models the truncation explicitly.

Behaviours the contracts pin down:
- **Single-leaf tree.** A root that is a leaf is popped without a box test.
  The query hands it over whenever its index differs from the querying
  body's, overlapping or not. The refresh pass skips such a root entirely:
  it is never queued and its box is never updated.
- **Completeness.** Pruning loses nothing when every internal box contains
  its children's boxes (`WellNested`). Every leaf whose box overlaps the
  query rectangle is popped.
- **Refresh keeps nesting.** For circles and a non-negative margin, the
  refresh pass preserves `WellNested`. So a query that runs right after the
  pass, before any reinsertion, is still complete.
- **Degenerate spawn inputs.**
  - A zero pitch makes the driver divide by zero. The model returns the
    error `ZeroPitch`.
  - A negative pitch gives column and row counts that are negative or zero.
    Their product is never negative. A request for more bodies than that
    product is refused. A request within it passes the check, but the loops
    run zero times and no body is created.
  - A negative `num_spawn` also creates no body.

Further facts of the code that the contracts follow:
- The query tests a child's box before pushing the child. A popped leaf's
  own box is never tested, so only the root escapes the box test
  (`aabb_opt_debug.py:139-152`).
- The drift margin is 0 in the optimised driver
  (`aabb_opt_debug.py:119`) and 1 unit in the library-backed driver
  (`lib_aabb.py:112`).
- The refresh pass skips a root leaf, because it has no parent
  (`aabb_opt_debug.py:113`).

## Model

| member | source | states |
|---|---|---|
| Geometry.OverlapsIffCommonPoint | aabb_opt_debug.py:145 | for a rectangle of non-negative size and a well-formed box, the overlap test passes exactly when some point lies in both closed regions, so touching edges count |
| BroadPhase.Walk | aabb_opt_debug.py:134-152 | reference pop order of the stack walk: the start node first, every later popped node's box overlaps the query rectangle, and no more nodes are popped than the tree has |
| BroadPhase.CandidatesIn | aabb_opt_debug.py:139-142 | every popped leaf whose index differs from the querying body's is handed over, nothing else is, and the querying body's own index never is |
| BroadPhase.Query | aabb_opt_debug.py:133-152 | the explicit-stack loop pops exactly the reference walk; pops are at most the node count `2L-1`; the body's own index is never a candidate; every candidate is the index of a leaf of the tree whose box overlaps the rectangle, unless that leaf is the root; a root leaf is handed over with no box test; in a well-nested tree every leaf overlapping the rectangle is a candidate |
| BroadPhase.QueryOutcome | aabb_opt_debug.py:139-142 | what the walk hands over: never the querying index; only indices of tree leaves whose boxes overlap the rectangle, or of a root leaf; for a one-leaf tree, that leaf unless it is the querying body; in a well-nested tree, every overlapping leaf of another body |
| BroadPhase.WalkSound | aabb_opt_debug.py:134-152 | the walk pops nothing foreign: every popped leaf is a leaf of the tree, and its box overlaps the query rectangle unless it is a root leaf |
| BroadPhase.WalkComplete | aabb_opt_debug.py:132-152 | pruning loses nothing: when every internal box contains its children's boxes, every leaf overlapping the query rectangle is popped |
| BroadPhase.AllPairs | aabb_opt_debug.py:133-152 | querying every body gives at most `bodies * nodes` pops in total; every pair `(i, j)` has `i` in range and `j != i`, and `j` is the index of a tree leaf whose box overlaps body `i`'s rectangle, unless that leaf is the root; in a well-nested tree every overlapping (body, leaf of another body) pair is produced, so there the pairs are exactly the overlapping ones |
| Drift.DriftedIffEscapes | lib_aabb.py:112 | for a circle, the drift test with margin `m` holds exactly when the rectangle grown by `m` on every side is not contained in the parent's box |
| Drift.TightMarginMeansContainment | aabb_opt_debug.py:119 | with margin 0, a circle is queued exactly when its rectangle is not contained in the parent's box, edges allowed |
| Drift.WiderMarginQueuesMore | lib_aabb.py:112 | a leaf queued under a margin is also queued under every wider margin |
| Drift.RefreshFrom | aabb_opt_debug.py:112-125 | the tree pass keeps the shape, the leaf indices and every internal box; it applies the one-leaf rule to each leaf of the flat leaf list and queues exactly the parented leaves that drifted, in leaf order |
| Drift.Refresh | aabb_opt_debug.py:112-113 | over a whole tree, nothing but leaf boxes changes; a root leaf is neither queued nor updated |
| Drift.QueuedExactlyEscapees | aabb_opt_debug.py:112-121 | a body is queued exactly when one of its leaves has a parent and the body's circle, grown by the margin, is not contained in that parent's box |
| Drift.StayingLeafInsideParent | aabb_opt_debug.py:122-125 | a leaf that is not queued gets exactly the body's rectangle as its box, and that box lies inside the unchanged parent box |
| Drift.RefreshKeepsNesting | aabb_opt_debug.py:111-125 | for circles and a non-negative margin, the pass keeps every internal box around its children's boxes |
| SpawnGrid.TruncDiv | aabb_opt_debug.py:48-49 | the integer conversion of the true quotient truncates toward zero for every sign: the product of quotient and divisor lies between zero and the dividend and is less than one divisor away from it, which fixes the quotient uniquely |
| SpawnGrid.Spawn | aabb_opt_debug.py:48-79 | a zero pitch is an error; otherwise the request is refused exactly when it exceeds columns times rows; a request that passes fails exactly when at least one body is due and `min_radius > max_radius`, where the radius draw has an empty range; on success it creates the predicted count of bodies, body `k` sits at row-major cell `k`, and with non-negative spacing every circle of radius up to `max_radius` lies on the screen |
| SpawnGrid.FillGrid | aabb_opt_debug.py:55-79 | the nested row and column loops create `num_spawn` bodies when the grid is non-empty (none otherwise), with indices `0..num_spawn-1` centred at `spacing + max_radius + col*pitch`, `spacing + max_radius + row*pitch` |
| SpawnGrid.GridCellOnScreen | aabb_opt_debug.py:59-79 | for a positive pitch and non-negative spacing, the circle of any radius up to `max_radius` at every grid cell stays within the 1280x720 screen, edges included |

## Left out

- Tree insertion, removal and refitting (`insert_from_root`, `delete_leaf_node`, `render_tree`). They are called by the driver, but their implementation is not part of this model. The tree is an input, and the refresh pass returns the queue of leaves to reinsert without performing the reinsertion.
- `aabb.py` is a stub. Its tree class has no operations, and its `AABB` constructor does not match the driver's calls.
- `lib_aabb.py` drives a third-party tree package. Only its drift-test margin (1 unit) is modelled, as `OneUnitMargin`.
- Narrow phase and collision response (`is_colliding_circle`, `reflect_obj`). `is_colliding_circle` is not part of this model. `reflect_obj` changes velocities and accelerations with floating-point vectors (`circle.py:52-58`). The model stops at the candidates handed to them and assumes that neither changes a rectangle, so every query of a tick sees the same rectangles.
- Motion integration (`on_tick`) and the wall clamps after the query loop. Both work on floating-point positions. Rectangles are taken as given integers, with the width and height of a circle's rectangle equal to its diameter.
- Random velocities and random radii at spawn time. Spawned bodies carry only an index and a centre. The on-screen property holds for every radius between 0 and `max_radius`. Only the empty radius range is modelled, as an error.
- Event handling, rendering, frame timing, FPS and average statistics, and command-line parsing.
- A query on an empty tree. The driver would crash there, and the model's tree type has no empty value.
- BroadPhase.Query: `checks` is the pop count of one query. The driver instead accumulates `num_checks` over all bodies and resets it once per second for display. `AllPairs` sums the per-query counts.
- BroadPhase.Query: candidates may be any leaf index. The driver reads `circles[top._indx]` for each candidate, which fails for an index at or above the number of bodies and counts a negative index from the end. The model assumes leaf indices name bodies, as the driver only creates indices `0..n-1`, and leaves out that lookup.
- Drift.Refresh: a leaf index must name a body (`0 <= indx < |bodies|`). Python would also accept negative indices, counting them from the end of the list. The driver only ever creates indices `0..n-1`.
