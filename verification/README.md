# Center coordinate assignment (Sugiyama layout)

This project models the `center` coordinate-assignment operator of the
Sugiyama layered layout, `src/sugiyama/coord/center.ts`, in Dafny, and proves
what it computes.

The operator receives the layers of a layered drawing, each an ordered row of
real or dummy nodes, together with a size accessor. It works in two passes:

- **Pack.** Each layer's nodes are placed left to right without gaps. Every
  node's `x` becomes the midpoint of its span, and the layer's total width is
  recorded.
- **Center.** The largest layer width is taken. If it is not positive, the
  call fails. Otherwise every layer is shifted right by half of its slack, and
  the largest width is returned.

The factory `center(...args)` refuses any argument.

Encoding (module `Center`, file `center.dfy`):

- A node is a `nat` index into the coordinate array `x: array<Option<real>>`.
  `None` means the node has no `x` yet, which is what the `def` read guards
  against.
- Layers are `seq<seq<Node>>`.
- The size accessor is a total function `Node -> (real, real)`. Only the
  width, component `.0`, is read.
- `Math.max` is modelled on an extended value: `NegInfinity` is what the
  maximum of no numbers gives. The single `maxWidth <= 0` test therefore also
  covers "no layers", exactly as in the source.
- The thrown errors are `Err` values of a `Result`.
- The array states that the passes leave are stated through `Assign`: the
  array after every node of the layers has been given its position's
  coordinate, with every other entry left unchanged.
  - `PackedCoords` gives the first pass's coordinates. They are prefix sums
    plus half the node's own width.
  - `CenteredCoords` gives the final coordinates: the packed coordinate plus
    the layer's offset.

The operator's methods require two things of their callers:

- every node index is inside the array;
- no node occurs twice in the layers.

The first comes from this model's own encoding of node coordinates as an
array; nothing in the source corresponds to it. The second is assumed of the
caller: the layered layout that calls the operator supplies each node once,
but the layering stage is not part of this model.

## Model

| member | source | states |
|---|---|---|
| Center.Factory | src/sugiyama/coord/center.ts:19-26 | the factory succeeds exactly when it gets no arguments; otherwise it fails with the number of arguments it got |
| Center.PackLayer | src/sugiyama/coord/center.ts:33-39 | the inner packing loop returns the sum of the layer's widths and sets the node at position k to the widths before it plus half its own; no other entry changes |
| Center.Pack | src/sugiyama/coord/center.ts:32-40 | the packing pass records each layer's width in layer order; it gives every node of the layers its packed coordinate whatever its earlier `x` was, and leaves every other node alone |
| Center.MathMax | src/sugiyama/coord/center.ts:41 | the maximum is -Infinity exactly for no numbers; otherwise it is one of the numbers and no number exceeds it |
| Center.Offset | src/sugiyama/coord/center.ts:47 | a layer's shift `(maxWidth - width) / 2` is never negative |
| Center.Def | src/sugiyama/coord/center.ts:49 | reading a coordinate through `def` demands that it is defined and yields its value |
| Center.ShiftLayer | src/sugiyama/coord/center.ts:48-50 | the inner centering loop moves every node of the layer right by the offset; no other entry changes |
| Center.CenterPass | src/sugiyama/coord/center.ts:45-51 | the centering pass moves every node of layer l right by `(maxWidth - widths[l]) / 2` from its current coordinate, leaves other nodes alone, and never reads an undefined `x` |
| Center.CenterCall | src/sugiyama/coord/center.ts:28-54 | the call fails with the zero-width error exactly when no layer has positive width (no layers included), leaving the packed coordinates; otherwise it returns the widest layer's width and leaves every node at its centred coordinate |
| Center.CenterCallTwice | src/sugiyama/coord/center.ts:29-53 | calling the operator twice returns the same result both times and leaves the same coordinates as calling it once |
| Center.AssignAt | src/sugiyama/coord/center.ts:34-38 | with distinct nodes, each node of the layers holds exactly its own position's coordinate, and nodes outside the layers keep their value |
| Center.AssignOf | src/sugiyama/coord/center.ts:34-38 | an array that holds each position's coordinate at its node, and the old value elsewhere, is the assignment |
| Center.AssignTwice | src/sugiyama/coord/center.ts:29-51 | a second assignment over the same layers overrides the first completely, so earlier coordinates do not matter |
| Center.PackedThenShiftedIsCentered | src/sugiyama/coord/center.ts:45-50 | shifting the packed state layer by layer gives exactly the centred coordinates |
| Center.ShiftedPackedIsCentered | src/sugiyama/coord/center.ts:45-50 | each final coordinate is the packed coordinate plus its layer's offset |
| Center.PackedSpansTile | src/sugiyama/coord/center.ts:33-38 | in a packed layer, the first span starts at 0, each span ends where the next starts, and the last ends at the layer's width |
| Center.CenteredSpacing | src/sugiyama/coord/center.ts:36-37 | consecutive final coordinates in a layer are `(w_k + w_{k+1}) / 2` apart |
| Center.PrefixWidthBounded | src/sugiyama/coord/center.ts:33-38 | with nonnegative widths, the running width stays between 0 and the layer's width |
| Center.LayerInsideDrawing | src/sugiyama/coord/center.ts:45-50 | with nonnegative widths, a centred layer lies in `[offset, offset + width]` inside `[0, maxWidth]` with equal margins, and each node's span lies inside it |
| Center.LayerWidthZeroIff | src/sugiyama/coord/center.ts:32-40 | with nonnegative widths, a layer has width 0 exactly when all its nodes do |
| Center.ZeroWidthIffAllNodesZero | src/sugiyama/coord/center.ts:41-44 | with nonnegative widths, the zero-width failure happens exactly when every node of every layer has width 0 |
| Center.PrefixWidthStep | src/sugiyama/coord/center.ts:35-37 | the running width grows by exactly the width of each node it passes |
| Center.Position | src/sugiyama/coord/center.ts:34 | a node that occurs in the layers has a position whose node it is |
| Center.TwoLayerRun | src/sugiyama/coord/center.ts:28-54 | running the operator on layers of widths 20 and 30 returns 30 and leaves the nodes at 10, 20 and 15 |
| Center.ZeroWidthRun | src/sugiyama/coord/center.ts:41-44 | running the operator on one node of width 0 fails with the zero-width error |
| Center.TwoLayerExample | src/sugiyama/coord/center.ts:32-53 | layers of widths 20 and 30: the maximum is 30 and the narrower layer's nodes end at 10 and 20; the wider layer's node stays at 15 |

## Left out

- IEEE floating point is not modelled. Widths and coordinates are mathematical reals, so rounding, NaN widths and infinite widths are outside the model.
- The exact error message strings are not modelled. This includes the argument list interpolated into the factory's message and the typo in that message. Errors are the values `ArgumentsGiven(count)` and `ZeroWidth`.
- The factory returns a unit value `CenterOperator` that stands for the returned closure. Running that closure is `CenterCall`.
- Layers that repeat a node are excluded by a precondition. In the source a repeated node has three effects: every occurrence adds the node's width to its layer's width, pass 1 leaves the last occurrence's packed coordinate, and pass 2 then shifts the node once per occurrence, by each occurrence's layer offset.
- Node heights are not modelled, because the operator never reads them.
- The node, dummy node, operator and size-accessor types are abstracted as node indices and a total width function. Their modules are not part of this model.
- The `def` utility module is not part of this model. Only its meaning is modelled: the value must be defined. It is proved never to fail after the packing pass.
- The module's documentation comment and image (lines 1-8) have no behaviour.
- CenterCall: nodes of the layers are written into a coordinate array rather than into a field of node objects. Aliasing between nodes is therefore only what the distinctness precondition rules out.
