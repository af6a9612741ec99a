/**
 * The simulator and its per-tick step. A step runs in three phases over the list of all leaf
 * nodes: copy every volume's live pressure and velocity into its staging fields; for each
 * node, resolve its four directional neighbours (a missing one becomes the wall volume at one
 * cell width), run the update kernel on a copy of the node's volume and write the result into
 * the staging fields only; finally commit every staging field into the live fields.
 *
 * The body of the update kernel is not part of this model: a step takes it as a parameter.
 */
module Simulation {
  import opened Wrappers
  import opened ControlVolumes
  import opened Graphs

  /** A neighbour volume together with its distance from the updated node. */
  datatype Neighbour = Neighbour(volume: ControlVolume, distance: real)

  /** Everything the update kernel is given: the volume to update, its four neighbours, and dt. */
  datatype Stencil = Stencil(
    centre: ControlVolume,
    left: Neighbour, right: Neighbour, top: Neighbour, bottom: Neighbour,
    dt: real)
  {
    /** The two stencils differ at most in the staging fields of their volumes. */
    predicate SameExceptStaging(other: Stencil) {
      && centre.SameExceptStaging(other.centre)
      && left.volume.SameExceptStaging(other.left.volume) && left.distance == other.left.distance
      && right.volume.SameExceptStaging(other.right.volume) && right.distance == other.right.distance
      && top.volume.SameExceptStaging(other.top.volume) && top.distance == other.top.distance
      && bottom.volume.SameExceptStaging(other.bottom.volume) && bottom.distance == other.bottom.distance
      && dt == other.dt
    }
  }

  /** The update kernel: its result's pressure and velocity become the staged values. */
  type Kernel = Stencil -> ControlVolume

  /**
   * The kernel reads no staging field of the neighbour volumes it is given. The step hands
   * the kernel whole copies of the neighbour volumes, whose staging fields already hold the
   * new values of the nodes visited earlier; when the kernel does not look at them, the
   * result does not depend on the visiting order. The centre is unconstrained: its staging
   * fields still equal its live values when it is visited.
   */
  ghost predicate IgnoresNeighbourStaging(kernel: Kernel) {
    forall a: Stencil, b: Stencil :: a.centre == b.centre && a.SameExceptStaging(b) ==>
      kernel(a).GetPressure() == kernel(b).GetPressure() && kernel(a).GetVelocity() == kernel(b).GetVelocity()
  }

  function Abs(x: real): (r: real)
    ensures r >= 0.0 && (r == x || r == -x)
  {
    if x < 0.0 then -x else x
  }

  /** The absolute coordinate gap along the axis of a direction. */
  function Gap(dir: Direction, neighbour: Point2d, node: Point2d): (d: real)
    ensures d >= 0.0
    ensures dir == Left || dir == Right ==> d == Abs(neighbour.x - node.x)
    ensures dir == Top || dir == Bottom ==> d == Abs(neighbour.y - node.y)
  {
    match dir
    case Left => Abs(neighbour.x - node.x)
    case Right => Abs(neighbour.x - node.x)
    case Top => Abs(neighbour.y - node.y)
    case Bottom => Abs(neighbour.y - node.y)
  }

  /** What one step needs besides the volumes: topology, the boundary substitute, dt and the kernel. */
  datatype Sweep = Sweep(nodes: seq<RealNode>, wall: ControlVolume, edgeDistance: real, dt: real, kernel: Kernel)

  predicate Fits(t: seq<ControlVolume>, sw: Sweep) {
    |sw.nodes| == |t| && WellFormed(sw.nodes)
  }

  /** Resolve one directional neighbour of node k, substituting the wall when there is none. */
  function NeighbourVia(t: seq<ControlVolume>, sw: Sweep, k: nat, dir: Direction): (n: Neighbour)
    requires Fits(t, sw) && k < |t|
    ensures sw.nodes[k].Link(dir).None? ==> n.volume == sw.wall && n.distance == sw.edgeDistance
    ensures sw.nodes[k].Link(dir).Some? ==>
      && sw.nodes[k].Link(dir).value < |t| && n.volume == t[sw.nodes[k].Link(dir).value]
      && n.distance == Gap(dir, sw.nodes[sw.nodes[k].Link(dir).value].coordinates, sw.nodes[k].coordinates)
    ensures sw.edgeDistance >= 0.0 ==> n.distance >= 0.0
  {
    assert sw.nodes[k].LinksBelow(|t|);
    match sw.nodes[k].Link(dir)
    case None => Neighbour(sw.wall, sw.edgeDistance)
    case Some(j) => Neighbour(t[j], Gap(dir, sw.nodes[j].coordinates, sw.nodes[k].coordinates))
  }

  /** The kernel's input for node k when the grid holds t. */
  function StencilAt(t: seq<ControlVolume>, sw: Sweep, k: nat): (st: Stencil)
    requires Fits(t, sw) && k < |t|
    ensures st.centre == t[k] && st.dt == sw.dt
  {
    Stencil(t[k],
            NeighbourVia(t, sw, k, Left), NeighbourVia(t, sw, k, Right),
            NeighbourVia(t, sw, k, Top), NeighbourVia(t, sw, k, Bottom),
            sw.dt)
  }

  /** Visiting node k: run the kernel on a copy and write only node k's staging fields. */
  function StageAt(t: seq<ControlVolume>, sw: Sweep, k: nat): (u: seq<ControlVolume>)
    requires Fits(t, sw) && k < |t|
    ensures |u| == |t|
    ensures u[k].SameExceptStaging(t[k])
    ensures u[k].newPressure == sw.kernel(StencilAt(t, sw, k)).GetPressure()
    ensures u[k].newVelocity == sw.kernel(StencilAt(t, sw, k)).GetVelocity()
    ensures forall j :: 0 <= j < |t| && j != k ==> u[j] == t[j]
  {
    var newVolume := sw.kernel(StencilAt(t, sw, k));
    t[k := t[k].WithStaging(newVolume.GetPressure(), newVolume.GetVelocity())]
  }

  /** The compute phase, visiting the nodes in the given order. */
  function ComputeInOrder(t: seq<ControlVolume>, sw: Sweep, order: seq<nat>): (u: seq<ControlVolume>)
    requires Fits(t, sw)
    requires forall m :: 0 <= m < |order| ==> order[m] < |t|
    ensures |u| == |t|
    ensures forall j :: 0 <= j < |t| && j !in order ==> u[j] == t[j]
    decreases |order|
  {
    if order == [] then t
    else StageAt(ComputeInOrder(t, sw, order[..|order| - 1]), sw, order[|order| - 1])
  }

  /** One step as the source runs it: pre-copy, compute in list order, commit. */
  function Step(s: seq<ControlVolume>, sw: Sweep): (r: seq<ControlVolume>)
    requires Fits(s, sw)
    ensures |r| == |s|
    ensures forall i :: 0 <= i < |s| ==> r[i].SameConstants(s[i])
  {
    ComputeChangesOnlyStaging(CopyAllToStaging(s), sw, Indices(|s|));
    CommitAll(ComputeInOrder(CopyAllToStaging(s), sw, Indices(|s|)))
  }

  /** What the kernel makes of node i when every read sees the pre-step grid. */
  function JacobiOutcome(s: seq<ControlVolume>, sw: Sweep, i: nat): ControlVolume
    requires Fits(s, sw) && i < |s|
  {
    sw.kernel(StencilAt(CopyAllToStaging(s), sw, i))
  }

  /** Node i after the pre-copy, with its Jacobi outcome staged. */
  function JacobiStaged(s: seq<ControlVolume>, sw: Sweep, i: nat): ControlVolume
    requires Fits(s, sw) && i < |s|
  {
    var out := JacobiOutcome(s, sw, i);
    s[i].CopyToStaging().WithStaging(out.GetPressure(), out.GetVelocity())
  }

  /**
   * The order-free reference step: every node takes the kernel's outcome on the pre-step
   * grid as its live and staged value; nothing else about any node changes.
   */
  function JacobiStep(s: seq<ControlVolume>, sw: Sweep): (r: seq<ControlVolume>)
    requires Fits(s, sw)
    ensures |r| == |s|
    ensures forall i :: 0 <= i < |s| ==> r[i].SameConstants(s[i])
  {
    seq(|s|, i requires 0 <= i < |s| => JacobiStaged(s, sw, i).Committed())
  }

  /**
   * The compute phase writes only staging fields, and only those of the nodes it visits:
   * every live pressure, velocity and fluid constant is as before the phase.
   */
  lemma {:induction false} ComputeChangesOnlyStaging(t: seq<ControlVolume>, sw: Sweep, order: seq<nat>)
    requires Fits(t, sw)
    requires forall m :: 0 <= m < |order| ==> order[m] < |t|
    ensures forall j :: 0 <= j < |t| ==> ComputeInOrder(t, sw, order)[j].SameExceptStaging(t[j])
    ensures forall j :: 0 <= j < |t| && j !in order ==> ComputeInOrder(t, sw, order)[j] == t[j]
    decreases |order|
  {
    if order != [] {
      var prefix := order[..|order| - 1];
      ComputeChangesOnlyStaging(t, sw, prefix);
    }
  }

  /** A stencil depends on the grid only through the volumes; volumes equal up to staging give stencils equal up to staging. */
  lemma StencilRespectsStaging(u: seq<ControlVolume>, v: seq<ControlVolume>, sw: Sweep, k: nat)
    requires Fits(u, sw) && Fits(v, sw) && k < |u|
    requires forall j :: 0 <= j < |u| ==> u[j].SameExceptStaging(v[j])
    ensures StencilAt(u, sw, k).SameExceptStaging(StencilAt(v, sw, k))
  {
    assert sw.nodes[k].LinksBelow(|u|);
  }

  /**
   * Whatever the visiting order and whatever the kernel, every volume the kernel is given
   * while visiting an unvisited node k equals, up to staging fields, the one it would be
   * given on the grid right after the pre-copy; the volume being updated is exactly that one.
   */
  lemma KernelSeesPreStepValues(s: seq<ControlVolume>, sw: Sweep, order: seq<nat>, k: nat)
    requires Fits(s, sw) && k < |s| && k !in order
    requires forall m :: 0 <= m < |order| ==> order[m] < |s|
    ensures var u := ComputeInOrder(CopyAllToStaging(s), sw, order);
      StencilAt(u, sw, k).SameExceptStaging(StencilAt(CopyAllToStaging(s), sw, k))
      && StencilAt(u, sw, k).centre == s[k].CopyToStaging()
  {
    var p := CopyAllToStaging(s);
    ComputeChangesOnlyStaging(p, sw, order);
    StencilRespectsStaging(ComputeInOrder(p, sw, order), p, sw, k);
  }

  /**
   * With a kernel that ignores staging fields, after visiting the nodes of any duplicate-free
   * order, each visited node holds its Jacobi outcome staged and each other node is as the
   * pre-copy left it.
   */
  lemma {:induction false} ComputeIsJacobi(s: seq<ControlVolume>, sw: Sweep, order: seq<nat>)
    requires Fits(s, sw) && IgnoresNeighbourStaging(sw.kernel)
    requires forall m :: 0 <= m < |order| ==> order[m] < |s|
    requires forall m, m' :: 0 <= m < m' < |order| ==> order[m] != order[m']
    ensures forall j :: 0 <= j < |s| ==>
      ComputeInOrder(CopyAllToStaging(s), sw, order)[j]
      == if j in order then JacobiStaged(s, sw, j) else CopyAllToStaging(s)[j]
    decreases |order|
  {
    var p := CopyAllToStaging(s);
    if order != [] {
      var prefix := order[..|order| - 1];
      var k := order[|order| - 1];
      ComputeIsJacobi(s, sw, prefix);
      var u := ComputeInOrder(p, sw, prefix);
      assert k !in prefix;
      forall j | 0 <= j < |s| ensures u[j].SameExceptStaging(p[j]) {
        if j in prefix {
          assert u[j] == JacobiStaged(s, sw, j);
        }
      }
      StencilRespectsStaging(u, p, sw, k);
      assert u[k] == p[k];
      forall j | 0 <= j < |s|
        ensures ComputeInOrder(p, sw, order)[j] == if j in order then JacobiStaged(s, sw, j) else p[j]
      {
        assert j in order <==> j in prefix || j == k by {
          assert order == prefix + [k];
        }
      }
    }
  }

  /**
   * Order independence: with a kernel that ignores staging fields, committing after a compute
   * phase that visits every node once, in ANY order, gives the Jacobi step.
   */
  lemma StepIsOrderIndependent(s: seq<ControlVolume>, sw: Sweep, order: seq<nat>)
    requires Fits(s, sw) && IgnoresNeighbourStaging(sw.kernel)
    requires IsVisitOrder(order, |s|)
    ensures CommitAll(ComputeInOrder(CopyAllToStaging(s), sw, order)) == JacobiStep(s, sw)
  {
    ComputeIsJacobi(s, sw, order);
  }

  /** The step as the source runs it equals the Jacobi step, for a kernel that ignores staging fields. */
  lemma StepIsJacobi(s: seq<ControlVolume>, sw: Sweep)
    requires Fits(s, sw) && IgnoresNeighbourStaging(sw.kernel)
    ensures Step(s, sw) == JacobiStep(s, sw)
  {
    IndicesIsVisitOrder(|s|);
    StepIsOrderIndependent(s, sw, Indices(|s|));
  }

  /**
   * Whatever the kernel, a step changes only pressure, velocity and staging fields, and a
   * node that the compute phase does not visit keeps its live pressure and velocity.
   */
  lemma StepFrame(s: seq<ControlVolume>, sw: Sweep, order: seq<nat>)
    requires Fits(s, sw)
    requires forall m :: 0 <= m < |order| ==> order[m] < |s|
    ensures var r := CommitAll(ComputeInOrder(CopyAllToStaging(s), sw, order));
      && |r| == |s|
      && (forall j :: 0 <= j < |s| ==> r[j].SameConstants(s[j]))
      && (forall j :: 0 <= j < |s| && j !in order ==>
            r[j].GetPressure() == s[j].GetPressure() && r[j].GetVelocity() == s[j].GetVelocity())
  {
    ComputeChangesOnlyStaging(CopyAllToStaging(s), sw, order);
  }

  /** Phase 1 of a step: every staging field receives the live value. */
  method CopyLiveToStaging(cells: array<ControlVolume>)
    modifies cells
    ensures cells[..] == CopyAllToStaging(old(cells[..]))
  {
    var i := 0;
    while i < cells.Length
      invariant 0 <= i <= cells.Length
      invariant forall j :: 0 <= j < i ==> cells[j] == old(cells[j]).CopyToStaging()
      invariant forall j :: i <= j < cells.Length ==> cells[j] == old(cells[j])
    {
      cells[i] := cells[i].WithStaging(cells[i].GetPressure(), cells[i].GetVelocity());
      i := i + 1;
    }
  }

  /**
   * The neighbour of node i in one direction: a present neighbour's volume at the absolute
   * coordinate gap along the direction's axis, otherwise the edge volume at the edge distance.
   */
  method ResolveNeighbour(cells: array<ControlVolume>, sw: Sweep, i: nat, dir: Direction) returns (n: Neighbour)
    requires Fits(cells[..], sw) && i < cells.Length
    ensures n == NeighbourVia(cells[..], sw, i, dir)
  {
    var node := sw.nodes[i];
    assert node.LinksBelow(|sw.nodes|);
    var neighbourIndex := node.Link(dir);
    if neighbourIndex.Some? {
      var j := neighbourIndex.value;
      var gap := if dir == Left || dir == Right then sw.nodes[j].coordinates.x - node.coordinates.x
                 else sw.nodes[j].coordinates.y - node.coordinates.y;
      n := Neighbour(cells[j], Abs(gap));
    } else {
      n := Neighbour(sw.wall, sw.edgeDistance);
    }
  }

  /**
   * Phase 2 of a step: for each node in list order, resolve its neighbours, run the kernel
   * on a copy of its volume and stage the result.
   */
  method ComputeStaging(cells: array<ControlVolume>, nodes: seq<RealNode>, edgeVolume: ControlVolume,
                        edgeVolumeDisplacement: real, dt: real, kernel: Kernel)
    requires cells.Length == |nodes| && WellFormed(nodes)
    modifies cells
    ensures cells[..] == ComputeInOrder(old(cells[..]), Sweep(nodes, edgeVolume, edgeVolumeDisplacement, dt, kernel),
                                        Indices(cells.Length))
  {
    var sw := Sweep(nodes, edgeVolume, edgeVolumeDisplacement, dt, kernel);
    var i := 0;
    while i < cells.Length
      invariant 0 <= i <= cells.Length
      invariant cells[..] == ComputeInOrder(old(cells[..]), sw, Indices(i))
    {
      ghost var before := cells[..];
      var left := ResolveNeighbour(cells, sw, i, Left);
      var right := ResolveNeighbour(cells, sw, i, Right);
      var top := ResolveNeighbour(cells, sw, i, Top);
      var bottom := ResolveNeighbour(cells, sw, i, Bottom);
      var stencil := Stencil(cells[i], left, right, top, bottom, dt);
      assert stencil == StencilAt(before, sw, i);
      var newVolume := kernel(stencil);
      cells[i] := cells[i].WithStaging(newVolume.GetPressure(), newVolume.GetVelocity());
      assert cells[..] == StageAt(before, sw, i);
      assert Indices(i + 1)[..i] == Indices(i);
      i := i + 1;
    }
  }

  /** Phase 3 of a step: every staged value becomes the live one. */
  method CommitStaging(cells: array<ControlVolume>)
    modifies cells
    ensures cells[..] == CommitAll(old(cells[..]))
  {
    var i := 0;
    while i < cells.Length
      invariant 0 <= i <= cells.Length
      invariant forall j :: 0 <= j < i ==> cells[j] == old(cells[j]).Committed()
      invariant forall j :: i <= j < cells.Length ==> cells[j] == old(cells[j])
    {
      cells[i] := cells[i].SetPressure(cells[i].newPressure);
      cells[i] := cells[i].SetVelocity(cells[i].newVelocity);
      i := i + 1;
    }
  }

  /** The simulator: fluid constants fixed for its lifetime, and the graph of volumes it drives. */
  class FluidSimulator {
    const density: real
    const viscosity: real
    const speedOfSound: real
    var graph: Graph

    ghost predicate Valid()
      reads this
    {
      graph.Valid()
    }

    /** The static wall that stands in for a missing neighbour. */
    function EdgeVolume(): (cv: ControlVolume)
      ensures cv.GetPressure() == 0.0 && cv.GetVelocity() == ZeroVelocity
      ensures cv.density == density && cv.viscosity == viscosity && cv.speedOfSound == speedOfSound
    {
      WithConstants(0.0, ZeroVelocity, density, viscosity, speedOfSound)
    }

    /** The sweep a step runs: the graph's topology, the wall at one nominal cell width, dt and the kernel. */
    function SweepFor(dt: real, kernel: Kernel): (sw: Sweep)
      reads this
      requires Valid()
      ensures sw.wall == EdgeVolume() && sw.edgeDistance == graph.CellWidth()
      ensures sw.nodes == graph.nodes && sw.dt == dt && sw.kernel == kernel
    {
      Sweep(graph.nodes, EdgeVolume(), graph.CellWidth(), dt, kernel)
    }

    /** Every volume of the graph starts at rest with the simulator's fluid constants. */
    constructor (density: real, viscosity: real, speedOfSound: real, graph: Graph)
      requires graph.Valid()
      modifies graph.cells
      ensures Valid() && this.graph == graph
      ensures this.density == density && this.viscosity == viscosity && this.speedOfSound == speedOfSound
      ensures forall i :: 0 <= i < graph.cells.Length ==>
        graph.cells[i] == WithConstants(0.0, ZeroVelocity, density, viscosity, speedOfSound)
    {
      this.density := density;
      this.viscosity := viscosity;
      this.speedOfSound := speedOfSound;
      this.graph := graph;
      new;
      var cells := graph.cells;
      var i := 0;
      while i < cells.Length
        invariant 0 <= i <= cells.Length
        invariant this.graph == graph && cells == graph.cells
        invariant forall j :: 0 <= j < i ==>
          cells[j] == WithConstants(0.0, ZeroVelocity, density, viscosity, speedOfSound)
      {
        cells[i] := WithConstants(0.0, ZeroVelocity, density, viscosity, speedOfSound);
        i := i + 1;
      }
    }

    /**
     * One time step. The new grid is the three-phase step of the old one; for a kernel that
     * ignores staging fields it is the Jacobi step, whatever the visiting order.
     */
    method UpdateControlVolumes(dt: real, kernel: Kernel)
      requires Valid()
      modifies graph.cells
      ensures Valid()
      ensures graph.cells[..] == Step(old(graph.cells[..]), SweepFor(dt, kernel))
      ensures IgnoresNeighbourStaging(kernel) ==> graph.cells[..] == JacobiStep(old(graph.cells[..]), SweepFor(dt, kernel))
      ensures forall i :: 0 <= i < graph.cells.Length ==> graph.cells[i].SameConstants(old(graph.cells[i]))
    {
      var edgeVolume := EdgeVolume();
      var edgeVolumeDisplacement := graph.CellWidth();
      ghost var sw := SweepFor(dt, kernel);
      ghost var s := graph.cells[..];
      CopyLiveToStaging(graph.cells);
      ComputeStaging(graph.cells, graph.nodes, edgeVolume, edgeVolumeDisplacement, dt, kernel);
      CommitStaging(graph.cells);
      StepFrame(s, sw, Indices(|s|));
      if IgnoresNeighbourStaging(kernel) {
        StepIsJacobi(s, sw);
      }
    }

    method GetControlVolumeGraph() returns (g: Graph)
      ensures g == graph
    {
      g := graph;
    }

    method SetControlVolumeGraph(g: Graph)
      requires g.Valid()
      modifies this
      ensures Valid() && graph == g
    {
      graph := g;
    }
  }
}
