/**
 * The "center" coordinate assignment operator of the Sugiyama layout.
 *
 * Given the layers of a layered drawing (each an ordered row of real or dummy
 * nodes) and a size accessor, the operator packs every layer's nodes left to
 * right without gaps, then shifts each layer right by half of its slack so that
 * every layer is centred inside the widest one, and returns that widest width.
 *
 * Nodes are indices into the coordinate array `x`; `x[n] == None` means node
 * `n` has no `x` yet. The size accessor is a total function from a node to its
 * (width, height); only the width is read.
 */
module Center {

  datatype Option<+T> = None | Some(value: T)

  datatype Result<+T, +E> = Ok(value: T) | Err(error: E)

  /** The two failures the operator reports. */
  datatype Error =
    | ArgumentsGiven(count: nat)  // the factory was called with `count` > 0 arguments
    | ZeroWidth                   // no layer has a positive width

  /** The operator value `center()` returns; running it is `CenterCall`. */
  datatype CenterOperator = CenterOperator

  type Node = nat

  /** What the size accessor reports for a node: (width, height). */
  type Size = (real, real)

  /** A number of JavaScript's `Math.max`: the maximum of no numbers is -Infinity. */
  datatype Extended = NegInfinity | Finite(v: real)

  // ---------------------------------------------------------------------------
  // The factory

  /** `center(...args)`: refuses any argument, otherwise yields the operator. */
  function Factory<A>(args: seq<A>): (r: Result<CenterOperator, Error>)
    ensures r.Ok? <==> |args| == 0
    ensures r.Err? ==> r.error == ArgumentsGiven(|args|)
  {
    if |args| != 0 then Err(ArgumentsGiven(|args|)) else Ok(CenterOperator)
  }

  // ---------------------------------------------------------------------------
  // Specification of the layout

  function NodeWidth(nodeSize: Node -> Size, n: Node): real
  {
    nodeSize(n).0
  }

  /** Total width of a layer: the sum of its nodes' widths, 0 when it is empty. */
  function LayerWidth(layer: seq<Node>, nodeSize: Node -> Size): real
  {
    if |layer| == 0 then 0.0
    else LayerWidth(layer[..|layer| - 1], nodeSize) + NodeWidth(nodeSize, layer[|layer| - 1])
  }

  /** Packed coordinate of the k-th node of a layer: the widths before it plus half its own. */
  function PackedX(layer: seq<Node>, k: nat, nodeSize: Node -> Size): real
    requires k < |layer|
  {
    LayerWidth(layer[..k], nodeSize) + NodeWidth(nodeSize, layer[k]) / 2.0
  }

  /** The per-layer widths that the packing pass records, in layer order. */
  function Widths(layers: seq<seq<Node>>, nodeSize: Node -> Size): seq<real>
  {
    seq(|layers|, l requires 0 <= l < |layers| => LayerWidth(layers[l], nodeSize))
  }

  /** JavaScript's `Math.max(...ws)` on finite numbers. */
  function MathMax(ws: seq<real>): (m: Extended)
    ensures m.NegInfinity? <==> |ws| == 0
    ensures m.Finite? ==> m.v in ws
    ensures m.Finite? ==> forall i :: 0 <= i < |ws| ==> ws[i] <= m.v
  {
    if |ws| == 0 then NegInfinity
    else
      var rest := MathMax(ws[1..]);
      if rest.Finite? && rest.v > ws[0] then rest else Finite(ws[0])
  }

  /** The test `maxWidth <= 0`, where -Infinity is below every number. */
  predicate AtMostZero(m: Extended)
  {
    m.NegInfinity? || m.v <= 0.0
  }

  /** The width of the widest layer, which the operator returns. */
  function MaxWidth(layers: seq<seq<Node>>, nodeSize: Node -> Size): real
    requires |layers| > 0
  {
    MathMax(Widths(layers, nodeSize)).v
  }

  /** How far the centering pass shifts every node of layer `l`. */
  function Offset(layers: seq<seq<Node>>, nodeSize: Node -> Size, l: nat): (o: real)
    requires l < |layers|
    ensures o >= 0.0
  {
    assert Widths(layers, nodeSize)[l] == LayerWidth(layers[l], nodeSize);
    (MaxWidth(layers, nodeSize) - LayerWidth(layers[l], nodeSize)) / 2.0
  }

  /** Final coordinate of the k-th node of layer `l`. */
  function CenteredX(layers: seq<seq<Node>>, nodeSize: Node -> Size, l: nat, k: nat): real
    requires l < |layers| && k < |layers[l]|
  {
    PackedX(layers[l], k, nodeSize) + Offset(layers, nodeSize, l)
  }

  /** Every node of every layer is a valid index into a coordinate array of length `len`. */
  predicate InBounds(layers: seq<seq<Node>>, len: nat)
  {
    forall l, k :: 0 <= l < |layers| && 0 <= k < |layers[l]| ==> layers[l][k] < len
  }

  /**
   * The node at position `k` of layer `l`. `Distinct` is stated through it so that
   * its four-variable quantifier fires only on these terms, not on every `layers[l][k]`.
   */
  function NodeAt(layers: seq<seq<Node>>, l: nat, k: nat): Node
    requires l < |layers| && k < |layers[l]|
  {
    layers[l][k]
  }

  /** No node occurs twice in the layers, whether in one layer or in two. */
  ghost predicate Distinct(layers: seq<seq<Node>>)
  {
    forall l1, k1, l2, k2 ::
      (0 <= l1 < |layers| && 0 <= k1 < |layers[l1]| &&
       0 <= l2 < |layers| && 0 <= k2 < |layers[l2]| &&
       NodeAt(layers, l1, k1) == NodeAt(layers, l2, k2)) ==> l1 == l2 && k1 == k2
  }

  /** Node `n` occurs in one of the first `count` layers. */
  ghost predicate InFirstLayers(layers: seq<seq<Node>>, count: nat, n: Node)
    requires count <= |layers|
  {
    exists l :: 0 <= l < count && n in layers[l]
  }

  ghost predicate InLayers(layers: seq<seq<Node>>, n: Node)
  {
    InFirstLayers(layers, |layers|, n)
  }

  predicate NonnegativeWidths(layer: seq<Node>, nodeSize: Node -> Size)
  {
    forall k :: 0 <= k < |layer| ==> NodeWidth(nodeSize, layer[k]) >= 0.0
  }

  /** Coordinates shaped like the layers: one number for each position in each layer. */
  ghost predicate Shaped(coords: seq<seq<real>>, layers: seq<seq<Node>>)
  {
    |coords| == |layers| && forall l :: 0 <= l < |layers| ==> |coords[l]| == |layers[l]|
  }

  /** The packed coordinate of every position. */
  function PackedCoords(layers: seq<seq<Node>>, nodeSize: Node -> Size): seq<seq<real>>
  {
    seq(|layers|, l requires 0 <= l < |layers| =>
      seq(|layers[l]|, k requires 0 <= k < |layers[l]| => PackedX(layers[l], k, nodeSize)))
  }

  /** The final coordinate of every position. */
  function CenteredCoords(layers: seq<seq<Node>>, nodeSize: Node -> Size): seq<seq<real>>
  {
    seq(|layers|, l requires 0 <= l < |layers| =>
      seq(|layers[l]|, k requires 0 <= k < |layers[l]| => CenteredX(layers, nodeSize, l, k)))
  }

  /** Every position's current coordinate moved right by its layer's offset `(maxWidth - widths[l]) / 2`. */
  function ShiftedCoords(xs: seq<Option<real>>, layers: seq<seq<Node>>, widths: seq<real>, maxWidth: real)
    : seq<seq<real>>
    requires InBounds(layers, |xs|) && |widths| == |layers|
    requires forall l, k :: 0 <= l < |layers| && 0 <= k < |layers[l]| ==> xs[layers[l][k]].Some?
  {
    seq(|layers|, l requires 0 <= l < |layers| =>
      seq(|layers[l]|, k requires 0 <= k < |layers[l]| =>
        xs[layers[l][k]].value + (maxWidth - widths[l]) / 2.0))
  }

  /** A position at which node `n` occurs. */
  ghost function Position(layers: seq<seq<Node>>, n: Node): (p: (nat, nat))
    requires InLayers(layers, n)
    ensures p.0 < |layers| && p.1 < |layers[p.0]| && layers[p.0][p.1] == n
  {
    var l :| 0 <= l < |layers| && n in layers[l];
    var k :| 0 <= k < |layers[l]| && layers[l][k] == n;
    (l, k)
  }

  /**
   * The coordinate array after every node of the layers has been given its
   * position's coordinate from `coords`; entries of other nodes are kept.
   */
  ghost function Assign(before: seq<Option<real>>, layers: seq<seq<Node>>, coords: seq<seq<real>>)
    : seq<Option<real>>
    requires Shaped(coords, layers)
  {
    seq(|before|, n requires 0 <= n < |before| =>
      if InLayers(layers, n) then
        var p := Position(layers, n);
        Some(coords[p.0][p.1])
      else before[n])
  }

  // ---------------------------------------------------------------------------
  // The operator

  /** The `def` utility: a coordinate read that must find a value. */
  function Def(v: Option<real>): (r: real)
    requires v.Some?
    ensures v == Some(r)
  {
    v.value
  }

  /** Pass 1 for one layer: place its nodes left to right and return the layer's width. */
  method PackLayer(layer: seq<Node>, nodeSize: Node -> Size, x: array<Option<real>>) returns (width: real)
    requires forall k :: 0 <= k < |layer| ==> layer[k] < x.Length
    requires forall a, b :: 0 <= a < b < |layer| ==> layer[a] != layer[b]
    modifies x
    ensures width == LayerWidth(layer, nodeSize)
    ensures forall k :: 0 <= k < |layer| ==> x[layer[k]] == Some(PackedX(layer, k, nodeSize))
    ensures forall n :: 0 <= n < x.Length && n !in layer ==> x[n] == old(x[n])
  {
    width := 0.0;
    ghost var x0 := x[..];
    for j := 0 to |layer|
      invariant width == LayerWidth(layer[..j], nodeSize)
      invariant forall k {:trigger x[layer[k]]} :: 0 <= k < j ==> x[layer[k]] == Some(PackedX(layer, k, nodeSize))
      invariant forall n :: 0 <= n < x.Length && n !in layer ==> x[n] == x0[n]
    {
      var node := layer[j];
      var nodeWidth := nodeSize(node).0;
      assert layer[..j + 1][..j] == layer[..j];
      assert width + nodeWidth / 2.0 == PackedX(layer, j, nodeSize);
      assert forall k :: 0 <= k < j ==> layer[k] != node;
      x[node] := Some(width + nodeWidth / 2.0);
      width := width + nodeWidth;
    }
    assert layer[..|layer|] == layer;
  }

  /** Pass 1: `layers.map(...)`, packing every layer and collecting the widths. */
  method Pack(layers: seq<seq<Node>>, nodeSize: Node -> Size, x: array<Option<real>>) returns (widths: seq<real>)
    requires InBounds(layers, x.Length) && Distinct(layers)
    modifies x
    ensures widths == Widths(layers, nodeSize)
    ensures x[..] == Assign(old(x[..]), layers, PackedCoords(layers, nodeSize))
  {
    widths := [];
    for li := 0 to |layers|
      invariant |widths| == li
      invariant forall l :: 0 <= l < li ==> widths[l] == LayerWidth(layers[l], nodeSize)
      invariant forall l, k :: 0 <= l < li && 0 <= k < |layers[l]| ==>
        x[layers[l][k]] == Some(PackedX(layers[l], k, nodeSize))
      invariant forall n :: 0 <= n < x.Length && !InFirstLayers(layers, li, n) ==> x[n] == old(x[n])
    {
      DistinctWithin(layers, li);
      forall l | 0 <= l < li {
        DistinctAcross(layers, l, li);
      }
      var width := PackLayer(layers[li], nodeSize, x);
      widths := widths + [width];
    }
    AssignOf(old(x[..]), x[..], layers, PackedCoords(layers, nodeSize));
  }

  /** The inner loop of pass 2: shift every node of one layer by `offset`. */
  method ShiftLayer(layer: seq<Node>, offset: real, x: array<Option<real>>)
    requires forall k :: 0 <= k < |layer| ==> layer[k] < x.Length && x[layer[k]].Some?
    requires forall a, b :: 0 <= a < b < |layer| ==> layer[a] != layer[b]
    modifies x
    ensures forall k :: 0 <= k < |layer| ==> x[layer[k]] == Some(old(x[layer[k]]).value + offset)
    ensures forall n :: 0 <= n < x.Length && n !in layer ==> x[n] == old(x[n])
  {
    for j := 0 to |layer|
      invariant forall k :: 0 <= k < j ==> x[layer[k]] == Some(old(x[layer[k]]).value + offset)
      invariant forall k :: j <= k < |layer| ==> x[layer[k]] == old(x[layer[k]])
      invariant forall n :: 0 <= n < x.Length && n !in layer[..j] ==> x[n] == old(x[n])
    {
      var node := layer[j];
      x[node] := Some(Def(x[node]) + offset);
    }
    assert layer[..|layer|] == layer;
  }

  /**
   * Pass 2: shift every node of layer `l` right by `(maxWidth - widths[l]) / 2`,
   * reading each node's current coordinate through `Def`.
   */
  method CenterPass(layers: seq<seq<Node>>, widths: seq<real>, maxWidth: real, x: array<Option<real>>)
    requires InBounds(layers, x.Length) && Distinct(layers) && |widths| == |layers|
    requires forall l, k :: 0 <= l < |layers| && 0 <= k < |layers[l]| ==> x[layers[l][k]].Some?
    modifies x
    ensures x[..] == Assign(old(x[..]), layers, ShiftedCoords(old(x[..]), layers, widths, maxWidth))
  {
    for li := 0 to |layers|
      invariant forall l, k :: 0 <= l < li && 0 <= k < |layers[l]| ==>
        x[layers[l][k]] == Some(old(x[layers[l][k]]).value + (maxWidth - widths[l]) / 2.0)
      invariant forall l, k :: li <= l < |layers| && 0 <= k < |layers[l]| ==>
        x[layers[l][k]] == old(x[layers[l][k]])
      invariant forall n :: 0 <= n < x.Length && !InLayers(layers, n) ==> x[n] == old(x[n])
    {
      DistinctWithin(layers, li);
      var width := widths[li];
      var offset := (maxWidth - width) / 2.0;
      ghost var before := x[..];
      ShiftLayer(layers[li], offset, x);
      forall l, k | 0 <= l < |layers| && l != li && 0 <= k < |layers[l]|
        ensures x[layers[l][k]] == before[layers[l][k]]
      {
        DistinctAcross(layers, l, li);
      }
    }
    AssignOf(old(x[..]), x[..], layers, ShiftedCoords(old(x[..]), layers, widths, maxWidth));
  }

  /**
   * The operator: pack, take the maximum width, fail when it is not positive,
   * centre every layer and return the maximum width.
   */
  method CenterCall(layers: seq<seq<Node>>, nodeSize: Node -> Size, x: array<Option<real>>)
    returns (r: Result<real, Error>)
    requires InBounds(layers, x.Length) && Distinct(layers)
    modifies x
    ensures r.Err? <==> forall l :: 0 <= l < |layers| ==> LayerWidth(layers[l], nodeSize) <= 0.0
    ensures r.Err? ==> r.error == ZeroWidth
    ensures r.Err? ==> x[..] == Assign(old(x[..]), layers, PackedCoords(layers, nodeSize))
    ensures r.Ok? ==> |layers| > 0 && r.value == MaxWidth(layers, nodeSize)
    ensures r.Ok? ==> x[..] == Assign(old(x[..]), layers, CenteredCoords(layers, nodeSize))
  {
    var widths := Pack(layers, nodeSize, x);
    var maxWidth := MathMax(widths);
    if AtMostZero(maxWidth) {
      if |layers| > 0 {
        assert forall l :: 0 <= l < |layers| ==>
          LayerWidth(layers[l], nodeSize) == widths[l] <= maxWidth.v;
      }
      return Err(ZeroWidth);
    }
    AssignAt(old(x[..]), layers, PackedCoords(layers, nodeSize));
    CenterPass(layers, widths, maxWidth.v, x);
    PackedThenShiftedIsCentered(old(x[..]), layers, nodeSize);
    AssignTwice(old(x[..]), layers, PackedCoords(layers, nodeSize), CenteredCoords(layers, nodeSize));
    return Ok(maxWidth.v);
  }

  /** Running the operator twice: the second call changes nothing and returns the same. */
  method CenterCallTwice(layers: seq<seq<Node>>, nodeSize: Node -> Size, x: array<Option<real>>)
    returns (first: Result<real, Error>, second: Result<real, Error>)
    requires InBounds(layers, x.Length) && Distinct(layers)
    modifies x
    ensures first == second
    ensures first.Ok? ==> x[..] == Assign(old(x[..]), layers, CenteredCoords(layers, nodeSize))
    ensures first.Err? ==> x[..] == Assign(old(x[..]), layers, PackedCoords(layers, nodeSize))
  {
    first := CenterCall(layers, nodeSize, x);
    second := CenterCall(layers, nodeSize, x);
    if first.Ok? {
      AssignTwice(old(x[..]), layers, CenteredCoords(layers, nodeSize), CenteredCoords(layers, nodeSize));
    } else {
      AssignTwice(old(x[..]), layers, PackedCoords(layers, nodeSize), PackedCoords(layers, nodeSize));
    }
  }

  // ---------------------------------------------------------------------------
  // Assigning coordinates to the nodes of the layers

  /** Without repeated nodes, each node of the layers gets exactly its own position's coordinate. */
  lemma AssignAt(before: seq<Option<real>>, layers: seq<seq<Node>>, coords: seq<seq<real>>)
    requires InBounds(layers, |before|) && Distinct(layers) && Shaped(coords, layers)
    ensures |Assign(before, layers, coords)| == |before|
    ensures forall l, k :: 0 <= l < |layers| && 0 <= k < |layers[l]| ==>
      Assign(before, layers, coords)[layers[l][k]] == Some(coords[l][k])
    ensures forall n :: 0 <= n < |before| && !InLayers(layers, n) ==> Assign(before, layers, coords)[n] == before[n]
  {
    forall l, k | 0 <= l < |layers| && 0 <= k < |layers[l]|
      ensures Assign(before, layers, coords)[layers[l][k]] == Some(coords[l][k])
    {
      var n := layers[l][k];
      assert InLayers(layers, n);
      var p := Position(layers, n);
      assert NodeAt(layers, p.0, p.1) == NodeAt(layers, l, k);
    }
  }

  /** A state that holds `coords` at every node of the layers and agrees with `before` elsewhere is the assignment. */
  lemma AssignOf(before: seq<Option<real>>, after: seq<Option<real>>, layers: seq<seq<Node>>, coords: seq<seq<real>>)
    requires |after| == |before| && InBounds(layers, |after|) && Shaped(coords, layers)
    requires forall l, k :: 0 <= l < |layers| && 0 <= k < |layers[l]| ==> after[layers[l][k]] == Some(coords[l][k])
    requires forall n :: 0 <= n < |after| && !InLayers(layers, n) ==> after[n] == before[n]
    ensures after == Assign(before, layers, coords)
  {
    forall n | 0 <= n < |after|
      ensures after[n] == Assign(before, layers, coords)[n]
    {
      if InLayers(layers, n) {
        var p := Position(layers, n);
        assert after[layers[p.0][p.1]] == Some(coords[p.0][p.1]);
      }
    }
  }

  /** A second assignment over the same layers overrides the first entirely. */
  lemma AssignTwice(before: seq<Option<real>>, layers: seq<seq<Node>>, first: seq<seq<real>>, second: seq<seq<real>>)
    requires Shaped(first, layers) && Shaped(second, layers)
    ensures Assign(Assign(before, layers, first), layers, second) == Assign(before, layers, second)
  {
    var once := Assign(before, layers, first);
    forall n | 0 <= n < |before|
      ensures Assign(once, layers, second)[n] == Assign(before, layers, second)[n]
    {
    }
  }

  /** Shifting the packed coordinates of each layer by its offset gives the centred ones. */
  lemma PackedThenShiftedIsCentered(before: seq<Option<real>>, layers: seq<seq<Node>>, nodeSize: Node -> Size)
    requires InBounds(layers, |before|) && Distinct(layers)
    requires !AtMostZero(MathMax(Widths(layers, nodeSize)))
    ensures var packed := Assign(before, layers, PackedCoords(layers, nodeSize));
      InBounds(layers, |packed|) &&
      (forall l, k :: 0 <= l < |layers| && 0 <= k < |layers[l]| ==> packed[layers[l][k]].Some?) &&
      ShiftedCoords(packed, layers, Widths(layers, nodeSize), MathMax(Widths(layers, nodeSize)).v)
        == CenteredCoords(layers, nodeSize)
  {
    var packed := Assign(before, layers, PackedCoords(layers, nodeSize));
    AssignAt(before, layers, PackedCoords(layers, nodeSize));
    ShiftedPackedIsCentered(packed, layers, nodeSize, Widths(layers, nodeSize), MathMax(Widths(layers, nodeSize)).v);
  }

  lemma ShiftedPackedIsCentered(packed: seq<Option<real>>, layers: seq<seq<Node>>, nodeSize: Node -> Size,
                                widths: seq<real>, maxWidth: real)
    requires InBounds(layers, |packed|) && |layers| > 0
    requires widths == Widths(layers, nodeSize) && maxWidth == MaxWidth(layers, nodeSize)
    requires forall l, k :: 0 <= l < |layers| && 0 <= k < |layers[l]| ==>
      packed[layers[l][k]] == Some(PackedCoords(layers, nodeSize)[l][k])
    ensures ShiftedCoords(packed, layers, widths, maxWidth) == CenteredCoords(layers, nodeSize)
  {
    var shifted := ShiftedCoords(packed, layers, widths, maxWidth);
    var centered := CenteredCoords(layers, nodeSize);
    forall l | 0 <= l < |layers|
      ensures shifted[l] == centered[l]
    {
      assert widths[l] == LayerWidth(layers[l], nodeSize);
      forall k | 0 <= k < |layers[l]|
        ensures shifted[l][k] == centered[l][k]
      {
        assert packed[layers[l][k]] == Some(PackedX(layers[l], k, nodeSize));
      }
    }
  }

  lemma DistinctWithin(layers: seq<seq<Node>>, l: nat)
    requires Distinct(layers) && l < |layers|
    ensures forall a, b :: 0 <= a < b < |layers[l]| ==> layers[l][a] != layers[l][b]
  {
    forall a, b | 0 <= a < b < |layers[l]|
      ensures layers[l][a] != layers[l][b]
    {
      assert NodeAt(layers, l, a) != NodeAt(layers, l, b);
    }
  }

  lemma DistinctAcross(layers: seq<seq<Node>>, l: nat, m: nat)
    requires Distinct(layers) && l < |layers| && m < |layers| && l != m
    ensures forall k :: 0 <= k < |layers[l]| ==> layers[l][k] !in layers[m]
  {
    forall k, j | 0 <= k < |layers[l]| && 0 <= j < |layers[m]|
      ensures layers[l][k] != layers[m][j]
    {
      assert NodeAt(layers, l, k) != NodeAt(layers, m, j);
    }
  }

  // ---------------------------------------------------------------------------
  // Properties of the layout

  lemma PrefixWidthStep(layer: seq<Node>, nodeSize: Node -> Size, k: nat)
    requires k < |layer|
    ensures LayerWidth(layer[..k + 1], nodeSize) == LayerWidth(layer[..k], nodeSize) + NodeWidth(nodeSize, layer[k])
  {
    assert layer[..k + 1][..k] == layer[..k];
  }

  /**
   * The packed spans [x - w/2, x + w/2] of a layer tile [0, LayerWidth]: the
   * first starts at 0, each ends where the next starts, the last ends at the
   * layer's width.
   */
  lemma PackedSpansTile(layer: seq<Node>, nodeSize: Node -> Size, k: nat)
    requires k < |layer|
    ensures k == 0 ==> PackedX(layer, k, nodeSize) - NodeWidth(nodeSize, layer[k]) / 2.0 == 0.0
    ensures k + 1 < |layer| ==>
      PackedX(layer, k, nodeSize) + NodeWidth(nodeSize, layer[k]) / 2.0
      == PackedX(layer, k + 1, nodeSize) - NodeWidth(nodeSize, layer[k + 1]) / 2.0
    ensures k + 1 == |layer| ==>
      PackedX(layer, k, nodeSize) + NodeWidth(nodeSize, layer[k]) / 2.0 == LayerWidth(layer, nodeSize)
  {
    PrefixWidthStep(layer, nodeSize, k);
    if k + 1 == |layer| {
      assert layer[..k + 1] == layer;
    }
  }

  /** Consecutive final coordinates of a layer are half their widths' sum apart. */
  lemma CenteredSpacing(layers: seq<seq<Node>>, nodeSize: Node -> Size, l: nat, k: nat)
    requires l < |layers| && k + 1 < |layers[l]|
    ensures CenteredX(layers, nodeSize, l, k + 1) - CenteredX(layers, nodeSize, l, k)
         == (NodeWidth(nodeSize, layers[l][k]) + NodeWidth(nodeSize, layers[l][k + 1])) / 2.0
  {
    PackedSpansTile(layers[l], nodeSize, k);
  }

  /** With nonnegative widths, every prefix of a layer is at most as wide as the layer. */
  lemma {:induction false} PrefixWidthBounded(layer: seq<Node>, nodeSize: Node -> Size, k: nat)
    requires NonnegativeWidths(layer, nodeSize)
    requires k <= |layer|
    ensures 0.0 <= LayerWidth(layer[..k], nodeSize) <= LayerWidth(layer, nodeSize)
    decreases |layer|, k
  {
    if k == |layer| {
      assert layer[..k] == layer;
      if k > 0 {
        PrefixWidthBounded(layer, nodeSize, k - 1);
        PrefixWidthStep(layer, nodeSize, k - 1);
      }
    } else {
      var init := layer[..|layer| - 1];
      assert init[..k] == layer[..k];
      PrefixWidthBounded(init, nodeSize, k);
      assert init[..|init|] == init;
      PrefixWidthBounded(init, nodeSize, |init|);
    }
  }

  /**
   * With nonnegative widths, layer `l` occupies [offset, offset + width] inside
   * [0, MaxWidth], with equal margins on both sides, and every node's span lies
   * inside the layer's.
   */
  lemma LayerInsideDrawing(layers: seq<seq<Node>>, nodeSize: Node -> Size, l: nat)
    requires l < |layers| && NonnegativeWidths(layers[l], nodeSize)
    ensures 0.0 <= Offset(layers, nodeSize, l)
    ensures Offset(layers, nodeSize, l) + LayerWidth(layers[l], nodeSize) <= MaxWidth(layers, nodeSize)
    ensures MaxWidth(layers, nodeSize) - (Offset(layers, nodeSize, l) + LayerWidth(layers[l], nodeSize))
         == Offset(layers, nodeSize, l)
    ensures forall k :: 0 <= k < |layers[l]| ==>
      Offset(layers, nodeSize, l) <= CenteredX(layers, nodeSize, l, k) - NodeWidth(nodeSize, layers[l][k]) / 2.0 &&
      CenteredX(layers, nodeSize, l, k) + NodeWidth(nodeSize, layers[l][k]) / 2.0
        <= Offset(layers, nodeSize, l) + LayerWidth(layers[l], nodeSize)
  {
    var layer := layers[l];
    forall k | 0 <= k < |layer|
      ensures 0.0 <= PackedX(layer, k, nodeSize) - NodeWidth(nodeSize, layer[k]) / 2.0
      ensures PackedX(layer, k, nodeSize) + NodeWidth(nodeSize, layer[k]) / 2.0 <= LayerWidth(layer, nodeSize)
    {
      PrefixWidthBounded(layer, nodeSize, k);
      PrefixWidthBounded(layer, nodeSize, k + 1);
      PrefixWidthStep(layer, nodeSize, k);
    }
  }

  /** With nonnegative widths, a layer has width 0 exactly when all its nodes do. */
  lemma {:induction false} LayerWidthZeroIff(layer: seq<Node>, nodeSize: Node -> Size)
    requires NonnegativeWidths(layer, nodeSize)
    ensures LayerWidth(layer, nodeSize) <= 0.0 <==> forall k :: 0 <= k < |layer| ==> NodeWidth(nodeSize, layer[k]) == 0.0
  {
    if |layer| > 0 {
      var init := layer[..|layer| - 1];
      LayerWidthZeroIff(init, nodeSize);
      PrefixWidthBounded(init, nodeSize, 0);
    }
  }

  /**
   * With nonnegative widths, the operator fails exactly when every node of
   * every layer has width 0, which includes having no layers or no nodes.
   */
  lemma ZeroWidthIffAllNodesZero(layers: seq<seq<Node>>, nodeSize: Node -> Size)
    requires forall l :: 0 <= l < |layers| ==> NonnegativeWidths(layers[l], nodeSize)
    ensures AtMostZero(MathMax(Widths(layers, nodeSize)))
        <==> forall l, k :: 0 <= l < |layers| && 0 <= k < |layers[l]| ==> NodeWidth(nodeSize, layers[l][k]) == 0.0
  {
    var ws := Widths(layers, nodeSize);
    forall l | 0 <= l < |layers|
      ensures ws[l] <= 0.0 <==> forall k :: 0 <= k < |layers[l]| ==> NodeWidth(nodeSize, layers[l][k]) == 0.0
    {
      LayerWidthZeroIff(layers[l], nodeSize);
    }
  }

  /** Sizes for the examples: node 2 is 30 wide, every other node 10. */
  function ExampleSize(n: Node): Size
  {
    if n == 2 then (30.0, 1.0) else (10.0, 1.0)
  }

  /** Two layers of widths [10, 10] and [30]: the first is shifted by 5, the second stays. */
  lemma TwoLayerExample()
    ensures var layers := [[0, 1], [2]];
      LayerWidth(layers[1], ExampleSize) == 30.0 &&
      MaxWidth(layers, ExampleSize) == 30.0 &&
      CenteredX(layers, ExampleSize, 0, 0) == 10.0 &&
      CenteredX(layers, ExampleSize, 0, 1) == 20.0 &&
      CenteredX(layers, ExampleSize, 1, 0) == 15.0
  {
    var layers := [[0, 1], [2]];
    assert [0, 1][..1] == [0] && [0][..0] == [] && [2][..0] == [];
    assert LayerWidth([0, 1], ExampleSize) == 20.0;
    assert LayerWidth([2], ExampleSize) == 30.0;
    assert Widths(layers, ExampleSize) == [20.0, 30.0];
  }

  /** In the two-layer example, the centred assignment puts the three nodes at 10, 20 and 15. */
  lemma TwoLayerFinal(before: seq<Option<real>>)
    requires |before| == 3
    ensures Distinct([[0, 1], [2]])
    ensures Assign(before, [[0, 1], [2]], CenteredCoords([[0, 1], [2]], ExampleSize))
         == [Some(10.0), Some(20.0), Some(15.0)]
  {
    TwoLayerDistinct();
    TwoLayerCoords();
    TwoLayerAssign(before, [[10.0, 20.0], [15.0]]);
  }

  /** The example's centred coordinates, layer by layer. */
  lemma TwoLayerCoords()
    ensures CenteredCoords([[0, 1], [2]], ExampleSize) == [[10.0, 20.0], [15.0]]
  {
    var coords := CenteredCoords([[0, 1], [2]], ExampleSize);
    TwoLayerExample();
    assert coords[0] == [10.0, 20.0];
    assert coords[1] == [15.0];
  }

  /** Assigning the example's coordinates to nodes 0, 1 and 2. */
  lemma TwoLayerAssign(before: seq<Option<real>>, coords: seq<seq<real>>)
    requires |before| == 3 && coords == [[10.0, 20.0], [15.0]]
    ensures Assign(before, [[0, 1], [2]], coords) == [Some(10.0), Some(20.0), Some(15.0)]
  {
    var layers := [[0, 1], [2]];
    TwoLayerDistinct();
    AssignAt(before, layers, coords);
    var after := Assign(before, layers, coords);
    assert after[layers[0][0]] == Some(10.0);
    assert after[layers[0][1]] == Some(20.0);
    assert after[layers[1][0]] == Some(15.0);
  }

  /** The example's layers repeat no node. */
  lemma TwoLayerDistinct()
    ensures Distinct([[0, 1], [2]])
  {
  }

  /** The operator run end to end on the two-layer example, through its contract alone. */
  method TwoLayerRun() returns (r: Result<real, Error>, xs: seq<Option<real>>)
    ensures r == Ok(30.0)
    ensures xs == [Some(10.0), Some(20.0), Some(15.0)]
  {
    var x := new Option<real>[3](_ => None);
    ghost var x0 := x[..];
    TwoLayerExample();
    TwoLayerFinal(x0);
    r := CenterCall([[0, 1], [2]], ExampleSize, x);
    xs := x[..];
  }

  /** The operator run on a single node of width 0: it reports the zero-width error. */
  method ZeroWidthRun() returns (r: Result<real, Error>)
    ensures r == Err(ZeroWidth)
  {
    var x := new Option<real>[1](_ => None);
    var layers := [[0]];
    assert Distinct(layers);
    r := CenterCall(layers, n => (0.0, 5.0), x);
    assert layers[0][..0] == [];
  }
}
