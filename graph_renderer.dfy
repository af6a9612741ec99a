/**
 * The older step in the graph renderer. For each node it classifies the unordered neighbour
 * list by strict coordinate comparison (the last match in each slot wins), substitutes the
 * edge volume at a point one cell width away for an empty slot, runs the stencil constructor
 * with a fixed time step and fixed fluid constants, stages its result, and then commits every
 * node. The constructor's body is not part of this model: a step takes it as a parameter.
 */
module Rendering {
  import opened Wrappers
  import opened ControlVolumes
  import opened Graphs
  import Simulation

  /** A volume paired with the point it is taken to sit at. */
  datatype PointNeighbour = PointNeighbour(volume: ControlVolume, point: Point2d)

  /** The arguments of the stencil constructor. */
  datatype PointStencil = PointStencil(
    original: PointNeighbour,
    left: PointNeighbour, right: PointNeighbour, top: PointNeighbour, bottom: PointNeighbour,
    dt: real, density: real, viscosity: real, speedOfSound: real)
  {
    predicate SameExceptStaging(other: PointStencil) {
      && original.volume.SameExceptStaging(other.original.volume) && original.point == other.original.point
      && left.volume.SameExceptStaging(other.left.volume) && left.point == other.left.point
      && right.volume.SameExceptStaging(other.right.volume) && right.point == other.right.point
      && top.volume.SameExceptStaging(other.top.volume) && top.point == other.top.point
      && bottom.volume.SameExceptStaging(other.bottom.volume) && bottom.point == other.bottom.point
      && dt == other.dt && density == other.density && viscosity == other.viscosity
      && speedOfSound == other.speedOfSound
    }
  }

  /** The stencil constructor: its result's pressure and velocity become the staged values. */
  type PointKernel = PointStencil -> ControlVolume

  /**
   * The stencil constructor reads no staging field of the neighbour volumes it is given;
   * the node's own volume is unconstrained, as no earlier visit changes it.
   */
  ghost predicate IgnoresNeighbourStaging(kernel: PointKernel) {
    forall a: PointStencil, b: PointStencil :: a.original == b.original && a.SameExceptStaging(b) ==>
      kernel(a).GetPressure() == kernel(b).GetPressure() && kernel(a).GetVelocity() == kernel(b).GetVelocity()
  }

  // The time step and fluid constants the renderer always hands the stencil constructor.
  const KernelDt: real := 0.1
  const KernelDensity: real := 1000.0
  const KernelViscosity: real := 1.8
  const KernelSpeedOfSound: real := 343.0

  /** The edge volume: pressure 0 and velocity (0, 0), built with the two-argument constructor. */
  function EdgeVolume(): (cv: ControlVolume)
    ensures cv.GetPressure() == 0.0 && cv.GetVelocity() == ZeroVelocity
  {
    FromState(0.0, ZeroVelocity)
  }

  /** A neighbour at point p belongs in slot dir of a node at point node. */
  predicate InSlot(dir: Direction, node: Point2d, p: Point2d) {
    match dir
    case Left => p.x < node.x
    case Right => p.x > node.x
    case Bottom => p.y < node.y
    case Top => p.y > node.y
  }

  predicate ListedBelow(nbrs: seq<nat>, n: nat) {
    forall k :: 0 <= k < |nbrs| ==> nbrs[k] < n
  }

  /** The slot's content after scanning nbrs front to back: the last neighbour that belongs in it. */
  function LastInSlot(t: seq<ControlVolume>, nodes: seq<RealNode>, i: nat, nbrs: seq<nat>, dir: Direction)
    : (r: Option<PointNeighbour>)
    requires |nodes| == |t| && i < |t| && ListedBelow(nbrs, |t|)
    ensures r.Some? ==> InSlot(dir, nodes[i].coordinates, r.value.point)
    decreases |nbrs|
  {
    if nbrs == [] then None
    else
      var j := nbrs[|nbrs| - 1];
      if InSlot(dir, nodes[i].coordinates, nodes[j].coordinates) then Some(PointNeighbour(t[j], nodes[j].coordinates))
      else LastInSlot(t, nodes, i, nbrs[..|nbrs| - 1], dir)
  }

  /** The neighbour listed at position m belongs in slot dir. */
  ghost predicate ListedInSlot(nodes: seq<RealNode>, i: nat, nbrs: seq<nat>, dir: Direction, m: nat)
    requires i < |nodes| && ListedBelow(nbrs, |nodes|) && m < |nbrs|
  {
    InSlot(dir, nodes[i].coordinates, nodes[nbrs[m]].coordinates)
  }

  /** Position m holds a neighbour in slot dir and no later one does. */
  ghost predicate IsLastInSlot(nodes: seq<RealNode>, i: nat, nbrs: seq<nat>, dir: Direction, m: nat)
    requires i < |nodes| && ListedBelow(nbrs, |nodes|) && m < |nbrs|
  {
    && ListedInSlot(nodes, i, nbrs, dir, m)
    && forall m' :: m < m' < |nbrs| ==> !ListedInSlot(nodes, i, nbrs, dir, m')
  }

  /** A slot stays empty exactly when no listed neighbour belongs in it. */
  lemma {:induction false} LastInSlotEmptyIffNoMatch(t: seq<ControlVolume>, nodes: seq<RealNode>, i: nat,
                                                     nbrs: seq<nat>, dir: Direction)
    requires |nodes| == |t| && i < |t| && ListedBelow(nbrs, |t|)
    ensures LastInSlot(t, nodes, i, nbrs, dir).None? <==>
      forall m :: 0 <= m < |nbrs| ==> !ListedInSlot(nodes, i, nbrs, dir, m)
    decreases |nbrs|
  {
    if nbrs != [] {
      var last := |nbrs| - 1;
      var prefix := nbrs[..last];
      if !ListedInSlot(nodes, i, nbrs, dir, last) {
        LastInSlotEmptyIffNoMatch(t, nodes, i, prefix, dir);
        assert forall m :: 0 <= m < last ==> (ListedInSlot(nodes, i, nbrs, dir, m) <==> ListedInSlot(nodes, i, prefix, dir, m));
      }
    }
  }

  /** A filled slot holds the volume and point of the last listed neighbour that belongs in it. */
  lemma {:induction false} LastInSlotIsLastMatch(t: seq<ControlVolume>, nodes: seq<RealNode>, i: nat,
                                                 nbrs: seq<nat>, dir: Direction, m: nat)
    requires |nodes| == |t| && i < |t| && ListedBelow(nbrs, |t|)
    requires m < |nbrs| && IsLastInSlot(nodes, i, nbrs, dir, m)
    ensures LastInSlot(t, nodes, i, nbrs, dir) == Some(PointNeighbour(t[nbrs[m]], nodes[nbrs[m]].coordinates))
    decreases |nbrs|
  {
    var last := |nbrs| - 1;
    if m < last {
      var prefix := nbrs[..last];
      assert !ListedInSlot(nodes, i, nbrs, dir, last);
      assert IsLastInSlot(nodes, i, prefix, dir, m) by {
        assert forall m' :: m < m' < last ==> (ListedInSlot(nodes, i, nbrs, dir, m') <==> ListedInSlot(nodes, i, prefix, dir, m'));
      }
      LastInSlotIsLastMatch(t, nodes, i, prefix, dir, m);
    }
  }

  /** A filled slot holds a listed neighbour that belongs in it and after which none does. */
  lemma {:induction false} LastInSlotComesFromList(t: seq<ControlVolume>, nodes: seq<RealNode>, i: nat,
                                                   nbrs: seq<nat>, dir: Direction)
    requires |nodes| == |t| && i < |t| && ListedBelow(nbrs, |t|)
    requires LastInSlot(t, nodes, i, nbrs, dir).Some?
    ensures exists m ::
      && 0 <= m < |nbrs| && IsLastInSlot(nodes, i, nbrs, dir, m)
      && LastInSlot(t, nodes, i, nbrs, dir).value == PointNeighbour(t[nbrs[m]], nodes[nbrs[m]].coordinates)
    decreases |nbrs|
  {
    var last := |nbrs| - 1;
    if ListedInSlot(nodes, i, nbrs, dir, last) {
      assert IsLastInSlot(nodes, i, nbrs, dir, last);
    } else {
      var prefix := nbrs[..last];
      LastInSlotComesFromList(t, nodes, i, prefix, dir);
      var m :| 0 <= m < |prefix| && IsLastInSlot(nodes, i, prefix, dir, m)
        && LastInSlot(t, nodes, i, prefix, dir).value == PointNeighbour(t[prefix[m]], nodes[prefix[m]].coordinates);
      assert forall m' :: m < m' < last ==> (ListedInSlot(nodes, i, nbrs, dir, m') <==> ListedInSlot(nodes, i, prefix, dir, m'));
      assert IsLastInSlot(nodes, i, nbrs, dir, m);
    }
  }

  /** A listed neighbour at exactly the node's coordinates fills no slot: dropping it changes nothing. */
  lemma {:induction false} CoincidentNeighbourFillsNoSlot(t: seq<ControlVolume>, nodes: seq<RealNode>, i: nat,
                                                          before: seq<nat>, j: nat, after: seq<nat>, dir: Direction)
    requires |nodes| == |t| && i < |t| && j < |t|
    requires ListedBelow(before, |t|) && ListedBelow(after, |t|)
    requires nodes[j].coordinates == nodes[i].coordinates
    ensures LastInSlot(t, nodes, i, before + [j] + after, dir) == LastInSlot(t, nodes, i, before + after, dir)
    decreases |after|
  {
    if after == [] {
      assert (before + [j] + after)[..|before|] == before;
      assert before + after == before;
    } else {
      var init := after[..|after| - 1];
      CoincidentNeighbourFillsNoSlot(t, nodes, i, before, j, init, dir);
      assert (before + [j] + after)[..|before + [j] + after| - 1] == before + [j] + init;
      assert (before + after)[..|before + after| - 1] == before + init;
    }
  }

  /** One diagonal neighbour, below and to the left, fills both the left and the bottom slot. */
  lemma DiagonalNeighbourFillsTwoSlots(t: seq<ControlVolume>, nodes: seq<RealNode>, i: nat, j: nat)
    requires |nodes| == |t| && i < |t| && j < |t|
    requires nodes[j].coordinates.x < nodes[i].coordinates.x && nodes[j].coordinates.y < nodes[i].coordinates.y
    ensures LastInSlot(t, nodes, i, [j], Left) == Some(PointNeighbour(t[j], nodes[j].coordinates))
    ensures LastInSlot(t, nodes, i, [j], Bottom) == Some(PointNeighbour(t[j], nodes[j].coordinates))
    ensures LastInSlot(t, nodes, i, [j], Right).None? && LastInSlot(t, nodes, i, [j], Top).None?
  {
  }

  function Opposite(dir: Direction): Direction {
    match dir
    case Left => Right
    case Right => Left
    case Top => Bottom
    case Bottom => Top
  }

  /** The guessed boundary point: the node's point shifted by h, down the axis for left and bottom, up it for right and top. */
  function EdgePoint(origin: Point2d, dir: Direction, h: real): (p: Point2d)
    ensures dir == Left || dir == Right ==> p.y == origin.y && Simulation.Abs(p.x - origin.x) == Simulation.Abs(h)
    ensures dir == Top || dir == Bottom ==> p.x == origin.x && Simulation.Abs(p.y - origin.y) == Simulation.Abs(h)
    ensures h > 0.0 ==> InSlot(dir, origin, p) && !InSlot(Opposite(dir), origin, p)
  {
    match dir
    case Left => Point2d(origin.x - h, origin.y)
    case Right => Point2d(origin.x + h, origin.y)
    case Bottom => Point2d(origin.x, origin.y - h)
    case Top => Point2d(origin.x, origin.y + h)
  }

  /** A slot's final content: the neighbour found, or the edge volume at the guessed boundary point. */
  function FillSlot(found: Option<PointNeighbour>, origin: Point2d, dir: Direction, h: real): (n: PointNeighbour)
    ensures found.Some? ==> n == found.value
    ensures found.None? ==> n.volume == EdgeVolume() && n.point == EdgePoint(origin, dir, h)
  {
    if found.Some? then found.value else PointNeighbour(EdgeVolume(), EdgePoint(origin, dir, h))
  }

  /** What a renderer step needs besides the volumes: the topology, one cell width and the stencil constructor. */
  datatype RenderSweep = RenderSweep(nodes: seq<RealNode>, cellWidth: real, kernel: PointKernel)

  predicate Fits(t: seq<ControlVolume>, rs: RenderSweep) {
    |rs.nodes| == |t| && WellFormed(rs.nodes)
  }

  /** The content of slot dir of node k when the grid holds t. */
  function SlotAt(t: seq<ControlVolume>, rs: RenderSweep, k: nat, dir: Direction): (n: PointNeighbour)
    requires Fits(t, rs) && k < |t|
    ensures rs.cellWidth > 0.0 ==> InSlot(dir, rs.nodes[k].coordinates, n.point)
  {
    assert rs.nodes[k].LinksBelow(|t|);
    FillSlot(LastInSlot(t, rs.nodes, k, rs.nodes[k].neighbours, dir), rs.nodes[k].coordinates, dir, rs.cellWidth)
  }

  /**
   * The stencil constructor's arguments for node k: the node's own volume at its point, the
   * four slots, and the fixed time step and constants, whatever the step was asked for.
   */
  function StencilAt(t: seq<ControlVolume>, rs: RenderSweep, k: nat): (st: PointStencil)
    requires Fits(t, rs) && k < |t|
    ensures st.original == PointNeighbour(t[k], rs.nodes[k].coordinates)
    ensures st.dt == 0.1 && st.density == 1000.0 && st.viscosity == 1.8 && st.speedOfSound == 343.0
  {
    PointStencil(PointNeighbour(t[k], rs.nodes[k].coordinates),
                 SlotAt(t, rs, k, Left), SlotAt(t, rs, k, Right), SlotAt(t, rs, k, Top), SlotAt(t, rs, k, Bottom),
                 KernelDt, KernelDensity, KernelViscosity, KernelSpeedOfSound)
  }

  /** Visiting node k: run the stencil constructor and write only node k's staging fields. */
  function StageAt(t: seq<ControlVolume>, rs: RenderSweep, k: nat): (u: seq<ControlVolume>)
    requires Fits(t, rs) && k < |t|
    ensures |u| == |t|
    ensures u[k].SameExceptStaging(t[k])
    ensures u[k].newPressure == rs.kernel(StencilAt(t, rs, k)).GetPressure()
    ensures u[k].newVelocity == rs.kernel(StencilAt(t, rs, k)).GetVelocity()
    ensures forall j :: 0 <= j < |t| && j != k ==> u[j] == t[j]
  {
    var newVolume := rs.kernel(StencilAt(t, rs, k));
    t[k := t[k].WithStaging(newVolume.GetPressure(), newVolume.GetVelocity())]
  }

  /** The compute loop, visiting the nodes in the given order. */
  function ComputeInOrder(t: seq<ControlVolume>, rs: RenderSweep, order: seq<nat>): (u: seq<ControlVolume>)
    requires Fits(t, rs)
    requires forall m :: 0 <= m < |order| ==> order[m] < |t|
    ensures |u| == |t|
    ensures forall j :: 0 <= j < |t| && j !in order ==> u[j] == t[j]
    decreases |order|
  {
    if order == [] then t
    else StageAt(ComputeInOrder(t, rs, order[..|order| - 1]), rs, order[|order| - 1])
  }

  /** One renderer step as the source runs it: compute in list order, then commit. */
  function RendererStep(s: seq<ControlVolume>, rs: RenderSweep): (r: seq<ControlVolume>)
    requires Fits(s, rs)
    ensures |r| == |s|
    ensures forall i :: 0 <= i < |s| ==> r[i].SameConstants(s[i])
  {
    ComputeChangesOnlyStaging(s, rs, Indices(|s|));
    CommitAll(ComputeInOrder(s, rs, Indices(|s|)))
  }

  /** Node i with the stencil constructor's outcome on the pre-step grid staged. */
  function JacobiStaged(s: seq<ControlVolume>, rs: RenderSweep, i: nat): ControlVolume
    requires Fits(s, rs) && i < |s|
  {
    var out := rs.kernel(StencilAt(s, rs, i));
    s[i].WithStaging(out.GetPressure(), out.GetVelocity())
  }

  /** The order-free reference step: every node takes its outcome on the pre-step grid. */
  function JacobiStep(s: seq<ControlVolume>, rs: RenderSweep): (r: seq<ControlVolume>)
    requires Fits(s, rs)
    ensures |r| == |s|
    ensures forall i :: 0 <= i < |s| ==> r[i].SameConstants(s[i])
  {
    seq(|s|, i requires 0 <= i < |s| => JacobiStaged(s, rs, i).Committed())
  }

  /** The compute loop writes only the staging fields of the nodes it visits. */
  lemma {:induction false} ComputeChangesOnlyStaging(t: seq<ControlVolume>, rs: RenderSweep, order: seq<nat>)
    requires Fits(t, rs)
    requires forall m :: 0 <= m < |order| ==> order[m] < |t|
    ensures forall j :: 0 <= j < |t| ==> ComputeInOrder(t, rs, order)[j].SameExceptStaging(t[j])
    ensures forall j :: 0 <= j < |t| && j !in order ==> ComputeInOrder(t, rs, order)[j] == t[j]
    decreases |order|
  {
    if order != [] {
      ComputeChangesOnlyStaging(t, rs, order[..|order| - 1]);
    }
  }

  /** Slot contents equal up to staging fields. */
  predicate SlotSameExceptStaging(a: Option<PointNeighbour>, b: Option<PointNeighbour>) {
    (a.None? && b.None?)
    || (a.Some? && b.Some? && a.value.point == b.value.point && a.value.volume.SameExceptStaging(b.value.volume))
  }

  lemma {:induction false} LastInSlotRespectsStaging(u: seq<ControlVolume>, v: seq<ControlVolume>, nodes: seq<RealNode>,
                                                     i: nat, nbrs: seq<nat>, dir: Direction)
    requires |nodes| == |u| == |v| && i < |u| && ListedBelow(nbrs, |u|)
    requires forall j :: 0 <= j < |u| ==> u[j].SameExceptStaging(v[j])
    ensures SlotSameExceptStaging(LastInSlot(u, nodes, i, nbrs, dir), LastInSlot(v, nodes, i, nbrs, dir))
    decreases |nbrs|
  {
    if nbrs != [] {
      LastInSlotRespectsStaging(u, v, nodes, i, nbrs[..|nbrs| - 1], dir);
    }
  }

  /** Grids equal up to staging fields give stencils equal up to staging fields. */
  lemma StencilRespectsStaging(u: seq<ControlVolume>, v: seq<ControlVolume>, rs: RenderSweep, k: nat)
    requires Fits(u, rs) && Fits(v, rs) && k < |u|
    requires forall j :: 0 <= j < |u| ==> u[j].SameExceptStaging(v[j])
    ensures StencilAt(u, rs, k).SameExceptStaging(StencilAt(v, rs, k))
  {
    var node := rs.nodes[k];
    assert node.LinksBelow(|u|);
    LastInSlotRespectsStaging(u, v, rs.nodes, k, node.neighbours, Left);
    LastInSlotRespectsStaging(u, v, rs.nodes, k, node.neighbours, Right);
    LastInSlotRespectsStaging(u, v, rs.nodes, k, node.neighbours, Top);
    LastInSlotRespectsStaging(u, v, rs.nodes, k, node.neighbours, Bottom);
  }

  /**
   * With a stencil constructor that ignores staging fields, after visiting the nodes of any
   * duplicate-free order, each visited node holds its outcome on the pre-step grid staged.
   */
  lemma {:induction false} ComputeIsJacobi(s: seq<ControlVolume>, rs: RenderSweep, order: seq<nat>)
    requires Fits(s, rs) && IgnoresNeighbourStaging(rs.kernel)
    requires forall m :: 0 <= m < |order| ==> order[m] < |s|
    requires forall m, m' :: 0 <= m < m' < |order| ==> order[m] != order[m']
    ensures forall j :: 0 <= j < |s| ==>
      ComputeInOrder(s, rs, order)[j] == if j in order then JacobiStaged(s, rs, j) else s[j]
    decreases |order|
  {
    if order != [] {
      var prefix := order[..|order| - 1];
      var k := order[|order| - 1];
      ComputeIsJacobi(s, rs, prefix);
      var u := ComputeInOrder(s, rs, prefix);
      assert k !in prefix;
      forall j | 0 <= j < |s| ensures u[j].SameExceptStaging(s[j]) {
        if j in prefix {
          assert u[j] == JacobiStaged(s, rs, j);
        }
      }
      StencilRespectsStaging(u, s, rs, k);
      assert u[k] == s[k];
      forall j | 0 <= j < |s|
        ensures ComputeInOrder(s, rs, order)[j] == if j in order then JacobiStaged(s, rs, j) else s[j]
      {
        assert j in order <==> j in prefix || j == k by {
          assert order == prefix + [k];
        }
      }
    }
  }

  /** Order independence of the renderer step, for a stencil constructor that ignores staging fields. */
  lemma RendererStepIsOrderIndependent(s: seq<ControlVolume>, rs: RenderSweep, order: seq<nat>)
    requires Fits(s, rs) && IgnoresNeighbourStaging(rs.kernel)
    requires IsVisitOrder(order, |s|)
    ensures CommitAll(ComputeInOrder(s, rs, order)) == JacobiStep(s, rs)
  {
    ComputeIsJacobi(s, rs, order);
  }

  /** The renderer step as the source runs it is the Jacobi step, for a stencil constructor that ignores staging fields. */
  lemma RendererStepIsJacobi(s: seq<ControlVolume>, rs: RenderSweep)
    requires Fits(s, rs) && IgnoresNeighbourStaging(rs.kernel)
    ensures RendererStep(s, rs) == JacobiStep(s, rs)
  {
    IndicesIsVisitOrder(|s|);
    RendererStepIsOrderIndependent(s, rs, Indices(|s|));
  }

  /**
   * The neighbour scan of one node: each listed neighbour is compared with the node by its
   * coordinates and overwrites every slot it belongs in.
   */
  method ClassifyNeighbours(cells: array<ControlVolume>, nodes: seq<RealNode>, i: nat)
    returns (left: Option<PointNeighbour>, right: Option<PointNeighbour>,
             top: Option<PointNeighbour>, bottom: Option<PointNeighbour>)
    requires cells.Length == |nodes| && WellFormed(nodes) && i < |nodes|
    ensures left == LastInSlot(cells[..], nodes, i, nodes[i].neighbours, Left)
    ensures right == LastInSlot(cells[..], nodes, i, nodes[i].neighbours, Right)
    ensures top == LastInSlot(cells[..], nodes, i, nodes[i].neighbours, Top)
    ensures bottom == LastInSlot(cells[..], nodes, i, nodes[i].neighbours, Bottom)
  {
    var neighbours := nodes[i].neighbours;
    var origin := nodes[i].coordinates;
    assert nodes[i].LinksBelow(|nodes|);
    left, right, top, bottom := None, None, None, None;
    var k := 0;
    while k < |neighbours|
      invariant 0 <= k <= |neighbours|
      invariant left == LastInSlot(cells[..], nodes, i, neighbours[..k], Left)
      invariant right == LastInSlot(cells[..], nodes, i, neighbours[..k], Right)
      invariant top == LastInSlot(cells[..], nodes, i, neighbours[..k], Top)
      invariant bottom == LastInSlot(cells[..], nodes, i, neighbours[..k], Bottom)
    {
      var j := neighbours[k];
      var neighbourPoint := nodes[j].coordinates;
      var found := PointNeighbour(cells[j], neighbourPoint);
      if neighbourPoint.x < origin.x {
        left := Some(found);
      }
      if neighbourPoint.x > origin.x {
        right := Some(found);
      }
      if neighbourPoint.y < origin.y {
        bottom := Some(found);
      }
      if neighbourPoint.y > origin.y {
        top := Some(found);
      }
      assert neighbours[..k + 1][..k] == neighbours[..k];
      k := k + 1;
    }
    assert neighbours[..k] == neighbours;
  }

  /** The compute loop of a renderer step, in list order; the requested time step is not used. */
  method ComputeStaging(cells: array<ControlVolume>, rs: RenderSweep)
    requires Fits(cells[..], rs)
    modifies cells
    ensures cells[..] == ComputeInOrder(old(cells[..]), rs, Indices(cells.Length))
  {
    var edgeVolume := FromState(0.0, ZeroVelocity);
    var i := 0;
    while i < cells.Length
      invariant 0 <= i <= cells.Length
      invariant cells[..] == ComputeInOrder(old(cells[..]), rs, Indices(i))
    {
      ghost var before := cells[..];
      var leftOp, rightOp, topOp, bottomOp := ClassifyNeighbours(cells, rs.nodes, i);
      var originalVolume := cells[i];
      var originalPoint := rs.nodes[i].coordinates;
      var h := rs.cellWidth;
      var left := if leftOp.Some? then leftOp.value else PointNeighbour(edgeVolume, EdgePoint(originalPoint, Left, h));
      var right := if rightOp.Some? then rightOp.value else PointNeighbour(edgeVolume, EdgePoint(originalPoint, Right, h));
      var top := if topOp.Some? then topOp.value else PointNeighbour(edgeVolume, EdgePoint(originalPoint, Top, h));
      var bottom := if bottomOp.Some? then bottomOp.value else PointNeighbour(edgeVolume, EdgePoint(originalPoint, Bottom, h));
      var stencil := PointStencil(PointNeighbour(originalVolume, originalPoint), left, right, top, bottom,
                                  KernelDt, KernelDensity, KernelViscosity, KernelSpeedOfSound);
      assert stencil == StencilAt(before, rs, i);
      var newVolume := rs.kernel(stencil);
      cells[i] := cells[i].WithStaging(newVolume.GetPressure(), newVolume.GetVelocity());
      assert cells[..] == StageAt(before, rs, i);
      assert Indices(i + 1)[..i] == Indices(i);
      i := i + 1;
    }
  }

  /** The renderer, reduced to the graph whose volumes it steps. */
  class GraphRenderer {
    var graph: Graph

    ghost predicate Valid()
      reads this
    {
      graph.Valid()
    }

    /** The renderer built over a graph that the graph library constructed. */
    constructor (graph: Graph)
      requires graph.Valid()
      ensures Valid() && this.graph == graph
    {
      this.graph := graph;
    }

    function SweepFor(kernel: PointKernel): (rs: RenderSweep)
      reads this
      requires Valid()
      ensures rs.nodes == graph.nodes && rs.cellWidth == graph.CellWidth() && rs.kernel == kernel
    {
      RenderSweep(graph.nodes, graph.CellWidth(), kernel)
    }

    /**
     * One renderer step. The new grid is a function of the old grid and the stencil
     * constructor alone: dt does not take part. For a stencil constructor that ignores staging
     * fields it is the Jacobi step.
     */
    method UpdateGraph(dt: real, kernel: PointKernel)
      requires Valid()
      modifies graph.cells
      ensures Valid()
      ensures graph.cells[..] == RendererStep(old(graph.cells[..]), SweepFor(kernel))
      ensures IgnoresNeighbourStaging(kernel) ==> graph.cells[..] == JacobiStep(old(graph.cells[..]), SweepFor(kernel))
      ensures forall i :: 0 <= i < graph.cells.Length ==> graph.cells[i].SameConstants(old(graph.cells[i]))
    {
      ghost var s := graph.cells[..];
      var rs := RenderSweep(graph.nodes, graph.scale / graph.resolution as real, kernel);
      ComputeStaging(graph.cells, rs);
      ComputeChangesOnlyStaging(s, rs, Indices(|s|));
      Simulation.CommitStaging(graph.cells);
      if IgnoresNeighbourStaging(kernel) {
        RendererStepIsJacobi(s, rs);
      }
    }
  }
}
