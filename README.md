# simple_cfd: the two-phase control-volume update, in Dafny

This project models the core of a small explicit finite-difference fluid solver. The solver
keeps a grid of control volumes in an adaptive-resolution graph. Every tick it advances all of
them in a Jacobi-style step with three phases:

1. Copy each volume's live pressure and velocity into its staging fields.
2. For each node, resolve its four directional neighbours and run the update kernel on a
   copy of the node's volume. A missing neighbour becomes a static wall volume one nominal
   cell width away. The kernel's result goes into the staging fields only.
3. Commit every staging field into the live fields.

Modules:

- `ControlVolumes` (`control_volume.dfy`) is the cell record. It holds pressure and velocity
  with their getters and setters, the public staging fields `new_pressure`/`new_velocity`, and
  the private fluid constants. It also has the three constructors and the whole-grid
  pre-copy and commit.
- `FiniteDifferences` (`finite_differences.dfy`) holds the quotients that the stale
  five-pair constructor computes and then discards.
- `Graphs` (`graph.dfy`) is what the solver sees of the external graph library. That is the
  leaf nodes with their coordinates, their optional left/right/top/bottom neighbours and
  their unordered neighbour list, plus the scale, the resolution and the array of volumes.
- `Simulation` (`fluid_simulator.dfy`) is `FluidSimulator`: its constructor, the step
  `UpdateControlVolumes`, and the graph getter and setter.
- `Rendering` (`graph_renderer.dfy`) is the older step `GraphRenderer::update_graph`. It
  classifies neighbours by coordinate comparison, guesses boundary points, and uses a fixed
  kernel time step and fixed constants.

The body of the update kernel (`ControlVolume::update`) is not part of this model. Neither is
the body of the stencil constructor that the renderer calls. Each step therefore takes the
kernel as a function-valued parameter. Each step method is proved equal to a specification
function of the old grid (`Simulation.Step`, `Rendering.RendererStep`) that visits the nodes
in list order.

The source copies whole neighbour volumes into the kernel, staging fields included. A
neighbour visited earlier in the same step already holds its new value in those fields. Two
results follow from this:

- For every kernel, the live pressure, velocity and constants that any kernel call sees are
  the pre-step ones. This is `Simulation.KernelSeesPreStepValues`.
- The result is the order-free Jacobi step, and so does not depend on the visiting order,
  when the kernel reads no staging field of the neighbour volumes it is given
  (`IgnoresNeighbourStaging`). The node's own volume is unconstrained: its staging fields are
  untouched until it is visited. This is
  `Simulation.StepIsOrderIndependent`, and `Rendering.RendererStepIsOrderIndependent` for
  the renderer.

Quantities are `real`. A quotient with a zero denominator is `None`, where the source would
produce an IEEE infinity or NaN. Fields that the C++ constructors leave uninitialised are 0
here.

The step has no obstacle masking and no streamline tracing. The simulator's obstacle list is
never filled, and the step never reads it.

## Model

| member | source | states |
|---|---|---|
| `ControlVolumes.ControlVolume.SetPressure` | include/ControlVolume.h:87 | afterwards `GetPressure` returns the value set; velocity, staging fields and fluid constants are unchanged |
| `ControlVolumes.ControlVolume.SetVelocity` | include/ControlVolume.h:101 | afterwards `GetVelocity` returns the value set; pressure, staging fields and fluid constants are unchanged |
| `ControlVolumes.ControlVolume.WithStaging` | include/ControlVolume.h:104-105 | writing the staging fields does not change what `GetPressure`/`GetVelocity` report, nor the constants |
| `ControlVolumes.ControlVolume.CopyToStaging` | src/FluidSimulator.cpp:55-56 | the staging fields equal the live pressure and velocity; live values and constants unchanged |
| `ControlVolumes.ControlVolume.Committed` | src/FluidSimulator.cpp:121-122 | the live pressure and velocity become the staged ones; constants unchanged |
| `ControlVolumes.DefaultVolume` | src/ControlVolume.cpp:3 | the default constructor yields pressure 0 and velocity (0, 0) |
| `ControlVolumes.FromState` | src/ControlVolume.cpp:51-52 | the two-argument constructor stores exactly the given pressure and velocity |
| `ControlVolumes.WithConstants` | include/ControlVolume.h:46-49 | the constructor with constants stores the given pressure, velocity, density, viscosity and speed of sound |
| `ControlVolumes.CopyAllToStaging` | src/FluidSimulator.cpp:54-57 | after the pre-copy loop every volume's staging fields hold its live values and nothing else differs |
| `ControlVolumes.CommitAll` | src/FluidSimulator.cpp:120-123 | after the commit loop every volume's live values are its staged values; staging and constants unchanged |
| `ControlVolumes.SetThenGet` | include/ControlVolume.h:80-101 | getters return what the setters stored, the two setters commute, and setting the current value changes nothing |
| `ControlVolumes.CommitAfterCopyKeepsValue` | src/FluidSimulator.cpp:53-57 | a volume that is pre-copied and then committed without being staged keeps its pressure and velocity |
| `FiniteDifferences.VDotX` | src/ControlVolume.cpp:33-34 | defined iff right.x differs from self.x; then times the gap it gives right.vx − self.vx; 0 when the velocities agree |
| `FiniteDifferences.WDotW` | src/ControlVolume.cpp:35-36 | defined iff top.y differs from self.y; then times the gap it gives top.vy − self.vy; 0 when the velocities agree |
| `FiniteDifferences.RhoDotX` | src/ControlVolume.cpp:37-38 | the pressure difference towards the right neighbour over the x gap; 0 when the pressures agree |
| `FiniteDifferences.RhoDotY` | src/ControlVolume.cpp:39-40 | the pressure difference towards the top neighbour over the y gap; 0 when the pressures agree |
| `FiniteDifferences.VDotDotX` | src/ControlVolume.cpp:41-44 | defined iff both x gaps are non-zero; then times (self.x − l.x)(r.x − self.x) it gives l.vx − 2·self.vx + r.vx; 0 for uniform x-velocity |
| `FiniteDifferences.VDotDotXExactOnQuadratics` | src/ControlVolume.cpp:41-44 | on an evenly spaced row the x second difference of a quadratic a + b·x + c·x² is exactly 2c |
| `FiniteDifferences.WDotDotYAsWritten` | src/ControlVolume.cpp:45-48 | as written, defined iff the LEFT and RIGHT neighbours' y differ from self's y; then times that product it gives b.vy − 2·self.vy + t.vy |
| `FiniteDifferences.WDotDotY` | src/ControlVolume.cpp:45-48 | corrected: defined iff the bottom and top y gaps are non-zero; then times their product it gives b.vy − 2·self.vy + t.vy; 0 for uniform y-velocity |
| `FiniteDifferences.WDotDotYExactOnQuadratics` | src/ControlVolume.cpp:45-48 | on an evenly spaced column the corrected y second difference of a quadratic is exactly 2c |
| `FiniteDifferences.WDotDotYAsWrittenFailsOnRegularCross` | src/ControlVolume.cpp:45-48 | on every evenly spaced cross the as-written y second difference is undefined, while the corrected one gives 2c for a quadratic profile |
| `FiniteDifferences.StencilDerivatives` | src/ControlVolume.cpp:33-48 | the six quotients, with the corrected y-curvature: says when each is defined; when all five volumes share pressure and velocity, every defined quotient is 0 |
| `FiniteDifferences.StencilDerivativesAsWritten` | src/ControlVolume.cpp:33-48 | the six quotients as the constructor computes them: the same as the corrected ones except the y-curvature, which is defined iff the left and right neighbours' y differ from self's |
| `FiniteDifferences.FivePairConstructor` | src/ControlVolume.cpp:5-49 | the five-pair constructor computes the as-written quotients and its result is its uninitialised storage: none of them reaches a field |
| `FiniteDifferences.FivePairConstructorDiscardsStencil` | src/ControlVolume.cpp:25-49 | the five-pair constructor builds the same volume whatever stencil it is given |
| `Graphs.Graph.constructor` | src/FluidSimulator.cpp:23-24 | the graph built from a node list, a scale and a resolution holds one default volume per node |
| `Graphs.Graph.CellWidth` | src/FluidSimulator.cpp:50-51 | the edge displacement times the resolution is the scale; it is non-negative for a non-negative scale |
| `Graphs.IndicesIsVisitOrder` | src/FluidSimulator.cpp:59 | the list order 0 … n−1 visits every node exactly once |
| `Simulation.Gap` | src/FluidSimulator.cpp:77-78 | a present neighbour's distance is the absolute coordinate gap along the direction's axis, never negative |
| `Simulation.NeighbourVia` | src/FluidSimulator.cpp:75-106 | a missing neighbour is the wall volume at the edge distance; a present one is the neighbour's volume at the absolute x gap (left, right) or y gap (top, bottom) |
| `Simulation.StencilAt` | src/FluidSimulator.cpp:108-114 | the kernel gets the node's own volume and the step's dt |
| `Simulation.StageAt` | src/FluidSimulator.cpp:109-116 | visiting a node writes only that node's staging fields, with the kernel result's pressure and velocity; every other node is unchanged |
| `Simulation.ComputeInOrder` | src/FluidSimulator.cpp:59-117 | the compute loop over a given visiting order keeps the cell count and leaves every node not in the order untouched |
| `Simulation.Step` | src/FluidSimulator.cpp:40-124 | one step (pre-copy, compute in list order, commit) keeps the cell count and every cell's fluid constants |
| `Simulation.ComputeChangesOnlyStaging` | src/FluidSimulator.cpp:59-117 | during the compute loop no live pressure, velocity or constant changes, and unvisited nodes are untouched |
| `Simulation.KernelSeesPreStepValues` | src/FluidSimulator.cpp:59-117 | for any kernel and any earlier visits, the stencil a not-yet-visited node gets equals, up to staging fields, the one it would get right after the pre-copy, and its own volume is exactly its pre-copied self |
| `Simulation.ComputeIsJacobi` | src/FluidSimulator.cpp:59-117 | for a kernel that ignores its neighbours' staging fields, after any duplicate-free visiting order each visited node holds its Jacobi outcome staged |
| `Simulation.JacobiStep` | src/FluidSimulator.cpp:59-123 | the order-free reference step keeps the number of cells and every cell's constants |
| `Simulation.StepIsOrderIndependent` | src/FluidSimulator.cpp:59-123 | for a kernel that ignores its neighbours' staging fields, compute in ANY visiting order and then commit gives the Jacobi step |
| `Simulation.StepIsJacobi` | src/FluidSimulator.cpp:40-124 | the step in list order equals the Jacobi step for a kernel that ignores its neighbours' staging fields |
| `Simulation.StepFrame` | src/FluidSimulator.cpp:115-123 | a step changes no fluid constant and no cell count; a node the compute loop skips keeps its pressure and velocity |
| `Simulation.CopyLiveToStaging` | src/FluidSimulator.cpp:54-57 | the array after the loop is the pre-copy of the array before it |
| `Simulation.ResolveNeighbour` | src/FluidSimulator.cpp:73-106 | the resolved neighbour is the one the boundary rule prescribes |
| `Simulation.ComputeStaging` | src/FluidSimulator.cpp:59-117 | the array after the loop is the compute phase, in list order, applied to the array before it |
| `Simulation.CommitStaging` | src/FluidSimulator.cpp:120-123 | the array after the loop is the commit of the array before it |
| `Simulation.FluidSimulator.EdgeVolume` | src/FluidSimulator.cpp:45-49 | the wall has pressure 0, velocity (0, 0) and the simulator's density, viscosity and speed of sound |
| `Simulation.FluidSimulator.SweepFor` | src/FluidSimulator.cpp:44-51 | a step substitutes the simulator's wall at one nominal cell width, scale / resolution |
| `Simulation.FluidSimulator.constructor` | src/FluidSimulator.cpp:15-38 | every cell ends at pressure 0, velocity (0, 0) and the simulator's constants |
| `Simulation.FluidSimulator.UpdateControlVolumes` | src/FluidSimulator.cpp:40-124 | the new grid is the three-phase step of the old one; it is the Jacobi step for a kernel that ignores its neighbours' staging fields; constants unchanged |
| `Simulation.FluidSimulator.GetControlVolumeGraph` | src/FluidSimulator.cpp:126-128 | returns the graph the simulator holds, so it returns g after a set with g |
| `Simulation.FluidSimulator.SetControlVolumeGraph` | src/FluidSimulator.cpp:130-133 | the simulator holds the given graph afterwards |
| `Rendering.EdgeVolume` | src/GraphRenderer.cpp:128 | the renderer's edge volume has pressure 0 and velocity (0, 0) |
| `Rendering.LastInSlot` | src/GraphRenderer.cpp:139-164 | the scan of the neighbour list for one slot; whatever it finds lies strictly on that side of the node |
| `Rendering.LastInSlotEmptyIffNoMatch` | src/GraphRenderer.cpp:139-164 | a slot stays empty exactly when no listed neighbour is strictly on that side |
| `Rendering.LastInSlotIsLastMatch` | src/GraphRenderer.cpp:139-164 | a slot holds the volume and point of the LAST listed neighbour on that side |
| `Rendering.LastInSlotComesFromList` | src/GraphRenderer.cpp:139-164 | a filled slot's content comes from a listed neighbour on that side with none on that side after it |
| `Rendering.CoincidentNeighbourFillsNoSlot` | src/GraphRenderer.cpp:145-163 | a neighbour at exactly the node's coordinates can be dropped from the list without changing any slot |
| `Rendering.DiagonalNeighbourFillsTwoSlots` | src/GraphRenderer.cpp:145-163 | one neighbour below and to the left fills both the left and the bottom slot |
| `Rendering.EdgePoint` | src/GraphRenderer.cpp:179-194 | the guessed point is the node's point moved by the cell width along the slot's axis; for a positive width it lies in that slot and not in the opposite one |
| `Rendering.FillSlot` | src/GraphRenderer.cpp:166-194 | an empty slot becomes the edge volume at the guessed point; a filled one is kept |
| `Rendering.SlotAt` | src/GraphRenderer.cpp:139-194 | a slot's final content lies strictly on that side of the node whenever the cell width is positive, whether it was found or guessed |
| `Rendering.StencilAt` | src/GraphRenderer.cpp:196-205 | the stencil constructor gets the node's own volume at its point, dt 0.1 and constants 1000, 1.8 and 343 |
| `Rendering.StageAt` | src/GraphRenderer.cpp:196-207 | visiting a node writes only that node's staging fields, with the stencil constructor's pressure and velocity; every other node is unchanged |
| `Rendering.ComputeInOrder` | src/GraphRenderer.cpp:131-208 | the renderer's compute loop over a given visiting order keeps the cell count and leaves every node not in the order untouched |
| `Rendering.RendererStep` | src/GraphRenderer.cpp:124-216 | one renderer step (compute in list order, commit, no pre-copy) keeps the cell count and every cell's fluid constants |
| `Rendering.ComputeChangesOnlyStaging` | src/GraphRenderer.cpp:131-208 | the renderer's compute loop changes no live value or constant, and unvisited nodes are untouched |
| `Rendering.JacobiStep` | src/GraphRenderer.cpp:131-214 | the renderer's order-free reference step keeps the cell count and constants |
| `Rendering.ComputeIsJacobi` | src/GraphRenderer.cpp:131-208 | for a constructor that ignores its neighbours' staging fields, each visited node holds its outcome on the pre-step grid |
| `Rendering.RendererStepIsOrderIndependent` | src/GraphRenderer.cpp:131-214 | for a constructor that ignores its neighbours' staging fields, any visiting order followed by the commit gives the Jacobi step |
| `Rendering.RendererStepIsJacobi` | src/GraphRenderer.cpp:124-216 | the renderer step in list order is the Jacobi step for a constructor that ignores its neighbours' staging fields |
| `Rendering.ClassifyNeighbours` | src/GraphRenderer.cpp:132-164 | after the scan each slot holds the last listed neighbour strictly on its side, or nothing |
| `Rendering.ComputeStaging` | src/GraphRenderer.cpp:131-208 | the array after the loop is the renderer's compute phase, in list order, applied to the array before it |
| `Rendering.GraphRenderer.constructor` | src/GraphRenderer.cpp:116-119 | the renderer holds the graph it is given, as `draw_graph` stores it |
| `Rendering.GraphRenderer.SweepFor` | src/GraphRenderer.cpp:124-194 | a renderer step uses the held graph's nodes and one nominal cell width, scale / resolution |
| `Rendering.GraphRenderer.UpdateGraph` | src/GraphRenderer.cpp:124-216 | the new grid depends on the old grid and the stencil constructor only, not on dt; it is the Jacobi step for a constructor that ignores its neighbours' staging fields |

## Left out

- The body of `ControlVolume::update` is not part of this model. Its declaration is all there is, so the kernel is a parameter. The sign checks in the kernel test therefore cannot be stated.
- The body of the nine-argument stencil constructor that the renderer calls is not part of this model either. It is a parameter in the same way.
- Drawing, the GTK event loop and timers are out of scope. This covers `on_draw`, `on_timeout`, the renderer's default constructor with its one-node graph and timer, `FluidSimulatorRenderer` and `main`. `Rendering.GraphRenderer` is built over a given graph, as `draw_graph` stores it.
- The multi-resolution graph library is external. Graph construction from a size and a resolution, sub-node enumeration and neighbour queries become the fixed node list of `Graphs.Graph`. Its constructor only stands in for the library.
- Obstacles and streamlines are left out. The step never reads or fills the obstacle list, and tracing is only called from drawing code.
- The units library and IEEE arithmetic are not modelled. Quantities are `real`, and a zero denominator gives `None` where the source yields an infinity or a NaN.
- Fields the C++ constructors leave uninitialised are 0 here. These are the constants of the default and two-argument constructors and the staging fields of every constructor.
- Shared ownership is modelled only in part. The graph is a Dafny object, so `GetControlVolumeGraph` returns an alias, as the source does. The volumes are values held in the graph's array.
- `include/Field.h` is not part of this model: it declares no behaviour.
- Simulation.StepIsOrderIndependent: proved only for a kernel that reads no staging field of the neighbour volumes (`IgnoresNeighbourStaging`). The source hands the kernel whole neighbour copies whose staging fields depend on the visiting order. Without the kernel's body, nothing is said about a kernel that does read them.
- Rendering.RendererStepIsOrderIndependent: the same hypothesis, for the renderer's stencil constructor.
- ControlVolumes.WithConstants: `include/ControlVolume.h:46-49` only declares this constructor, and its body is not part of this model. That it stores its five arguments is taken from the declaration's documentation.

## Findings

| source | as written | input that shows it | evidently intended | confidence | as-written member | corrected member |
|---|---|---|---|---|---|---|
| src/ControlVolume.cpp:45-48 | the y second difference divides by (self.y − left.y)·(right.y − self.y), the spacing of the LEFT and RIGHT neighbours | any evenly spaced cross, e.g. self (0,0), left (−1,0), right (1,0), bottom (0,−1), top (0,1): the left and right neighbours share self's y, so the denominator is 0 whatever the velocities | (self.y − bottom.y)·(top.y − self.y), mirroring the x second difference | high; not executed | `FiniteDifferences.WDotDotYAsWritten` | `FiniteDifferences.WDotDotY` |

`FiniteDifferences.WDotDotYAsWrittenFailsOnRegularCross` proves the discrepancy on every
evenly spaced cross. `FiniteDifferences.WDotDotYExactOnQuadratics` proves that the corrected
form recovers the second derivative of a quadratic. `FiniteDifferences.StencilDerivatives`
uses the corrected form. The five-pair constructor discards every quotient, so the two forms
build the same volume.
