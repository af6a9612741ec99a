/**
 * The adaptive-resolution graph that holds the control volumes. The graph library itself is
 * external; it is seen here only through what the solver asks of it: the list of all leaf
 * nodes, each node's coordinates, its four directional neighbours (possibly missing), its
 * unordered neighbour list, the graph's physical scale and its resolution.
 */
module Graphs {
  import opened Wrappers
  import opened ControlVolumes

  datatype Direction = Left | Right | Top | Bottom

  /** One leaf node; neighbours are indices into the graph's list of leaf nodes. */
  datatype RealNode = RealNode(
    coordinates: Point2d,
    left: Option<nat>, right: Option<nat>, top: Option<nat>, bottom: Option<nat>,
    neighbours: seq<nat>)
  {
    /** The directional neighbour query. */
    function Link(dir: Direction): Option<nat> {
      match dir
      case Left => left
      case Right => right
      case Top => top
      case Bottom => bottom
    }

    /** Every neighbour this node names is one of the first n nodes. */
    predicate LinksBelow(n: nat) {
      && (left.Some? ==> left.value < n)
      && (right.Some? ==> right.value < n)
      && (top.Some? ==> top.value < n)
      && (bottom.Some? ==> bottom.value < n)
      && (forall k :: 0 <= k < |neighbours| ==> neighbours[k] < n)
    }
  }

  /** Neighbour queries only ever return nodes of the graph. */
  predicate WellFormed(nodes: seq<RealNode>) {
    forall i :: 0 <= i < |nodes| ==> nodes[i].LinksBelow(|nodes|)
  }

  /** The order in which the list of all leaf nodes is visited: 0, 1, ..., n - 1. */
  function Indices(n: nat): (r: seq<nat>)
    ensures |r| == n
    ensures forall j :: 0 <= j < n ==> r[j] == j
  {
    if n == 0 then [] else Indices(n - 1) + [n - 1]
  }

  /** A visiting order that reaches every one of n nodes exactly once. */
  predicate IsVisitOrder(order: seq<nat>, n: nat) {
    && (forall m :: 0 <= m < |order| ==> order[m] < n)
    && (forall m, m' :: 0 <= m < m' < |order| ==> order[m] != order[m'])
    && (forall j :: 0 <= j < n ==> j in order)
  }

  lemma IndicesIsVisitOrder(n: nat)
    ensures IsVisitOrder(Indices(n), n)
  {
    var r := Indices(n);
    forall j | 0 <= j < n ensures j in r {
      assert r[j] == j;
    }
  }

  /** A graph: its leaf nodes (fixed topology), scale, resolution, and the volumes it holds. */
  class Graph {
    const nodes: seq<RealNode>
    const scale: real
    const resolution: int
    const cells: array<ControlVolume>

    ghost predicate Valid() {
      cells.Length == |nodes| && WellFormed(nodes) && resolution > 0
    }

    /** One nominal cell width: the graph's scale divided by its resolution. */
    function CellWidth(): (h: real)
      requires Valid()
      ensures h * resolution as real == scale
      ensures scale >= 0.0 ==> h >= 0.0
    {
      scale / resolution as real
    }

    /** The graph library default-constructs every volume it holds. */
    constructor (nodes: seq<RealNode>, scale: real, resolution: int)
      requires WellFormed(nodes) && resolution > 0
      ensures Valid() && fresh(cells)
      ensures this.nodes == nodes && this.scale == scale && this.resolution == resolution
      ensures forall i :: 0 <= i < cells.Length ==> cells[i] == DefaultVolume()
    {
      this.nodes := nodes;
      this.scale := scale;
      this.resolution := resolution;
      this.cells := new ControlVolume[|nodes|](_ => DefaultVolume());
    }
  }
}
