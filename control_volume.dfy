/**
 * The cell record of the solver: one control volume holding its live pressure and
 * velocity, the staging fields the simulator writes the next step's values into, and the
 * fluid constants, which have no setter.
 *
 * A control volume is a value: the simulator copies it by assignment whenever it reads a
 * neighbour or runs the update on a scratch copy. It is therefore a datatype here, and each
 * setter returns the updated value; the grid stores the values in an array it updates in place.
 */
module ControlVolumes {

  datatype Point2d = Point2d(x: real, y: real)

  datatype Velocity2d = Velocity2d(x: real, y: real)

  const ZeroVelocity: Velocity2d := Velocity2d(0.0, 0.0)

  datatype ControlVolume = ControlVolume(
    pressure: real,
    velocity: Velocity2d,
    // staging fields: the next time step's values before they are committed
    newPressure: real,
    newVelocity: Velocity2d,
    // fluid constants: set only by construction or by assigning a whole volume
    density: real,
    viscosity: real,
    speedOfSound: real)
  {
    function GetPressure(): real { pressure }

    function GetVelocity(): Velocity2d { velocity }

    /** True when both volumes hold the same fluid constants. */
    predicate SameConstants(other: ControlVolume) {
      density == other.density && viscosity == other.viscosity && speedOfSound == other.speedOfSound
    }

    /** Only the live pressure changes. */
    function SetPressure(p: real): (cv: ControlVolume)
      ensures cv.GetPressure() == p
      ensures cv.GetVelocity() == GetVelocity()
      ensures cv.newPressure == newPressure && cv.newVelocity == newVelocity
      ensures cv.SameConstants(this)
    {
      this.(pressure := p)
    }

    /** Only the live velocity changes. */
    function SetVelocity(v: Velocity2d): (cv: ControlVolume)
      ensures cv.GetVelocity() == v
      ensures cv.GetPressure() == GetPressure()
      ensures cv.newPressure == newPressure && cv.newVelocity == newVelocity
      ensures cv.SameConstants(this)
    {
      this.(velocity := v)
    }

    /** Writing the public staging fields leaves what the getters report untouched. */
    function WithStaging(p: real, v: Velocity2d): (cv: ControlVolume)
      ensures cv.newPressure == p && cv.newVelocity == v
      ensures cv.GetPressure() == GetPressure() && cv.GetVelocity() == GetVelocity()
      ensures cv.SameConstants(this)
    {
      this.(newPressure := p, newVelocity := v)
    }

    /** The first phase of a step: the staging fields receive the live values. */
    function CopyToStaging(): (cv: ControlVolume)
      ensures cv.newPressure == GetPressure() && cv.newVelocity == GetVelocity()
      ensures cv.GetPressure() == GetPressure() && cv.GetVelocity() == GetVelocity()
      ensures cv.SameConstants(this)
    {
      WithStaging(GetPressure(), GetVelocity())
    }

    /** The commit phase of a step: the staged values become the live ones. */
    function Committed(): (cv: ControlVolume)
      ensures cv.GetPressure() == newPressure && cv.GetVelocity() == newVelocity
      ensures cv.newPressure == newPressure && cv.newVelocity == newVelocity
      ensures cv.SameConstants(this)
    {
      SetPressure(newPressure).SetVelocity(newVelocity)
    }

    /** Two volumes that differ at most in their staging fields. */
    predicate SameExceptStaging(other: ControlVolume) {
      CopyToStaging() == other.CopyToStaging()
    }
  }

  /**
   * The default constructor: pressure 0 and velocity (0, 0). The source leaves the fluid
   * constants and the staging fields uninitialised; they are 0 here.
   */
  function DefaultVolume(): (cv: ControlVolume)
    ensures cv.GetPressure() == 0.0 && cv.GetVelocity() == ZeroVelocity
  {
    ControlVolume(0.0, ZeroVelocity, 0.0, ZeroVelocity, 0.0, 0.0, 0.0)
  }

  /**
   * The two-argument constructor: exactly the given pressure and velocity. The fluid
   * constants and the staging fields are left uninitialised by the source; they are 0 here.
   */
  function FromState(p: real, v: Velocity2d): (cv: ControlVolume)
    ensures cv.GetPressure() == p && cv.GetVelocity() == v
  {
    ControlVolume(p, v, 0.0, ZeroVelocity, 0.0, 0.0, 0.0)
  }

  /**
   * The constructor with fluid constants: the given pressure, velocity and constants.
   * The staging fields are not initialised by it; they are 0 here.
   */
  function WithConstants(p: real, v: Velocity2d, density: real, viscosity: real, speedOfSound: real)
    : (cv: ControlVolume)
    ensures cv.GetPressure() == p && cv.GetVelocity() == v
    ensures cv.density == density && cv.viscosity == viscosity && cv.speedOfSound == speedOfSound
  {
    ControlVolume(p, v, 0.0, ZeroVelocity, density, viscosity, speedOfSound)
  }

  /** The commit loop applied to every volume of a grid. */
  function CommitAll(s: seq<ControlVolume>): (r: seq<ControlVolume>)
    ensures |r| == |s|
    ensures forall i :: 0 <= i < |s| ==> r[i].GetPressure() == s[i].newPressure && r[i].GetVelocity() == s[i].newVelocity
    ensures forall i :: 0 <= i < |s| ==> r[i].newPressure == s[i].newPressure && r[i].newVelocity == s[i].newVelocity
    ensures forall i :: 0 <= i < |s| ==> r[i].SameConstants(s[i])
  {
    seq(|s|, i requires 0 <= i < |s| => s[i].Committed())
  }

  /** The pre-copy loop applied to every volume of a grid. */
  function CopyAllToStaging(s: seq<ControlVolume>): (r: seq<ControlVolume>)
    ensures |r| == |s|
    ensures forall i :: 0 <= i < |s| ==> r[i].SameExceptStaging(s[i])
    ensures forall i :: 0 <= i < |s| ==> r[i].newPressure == s[i].GetPressure() && r[i].newVelocity == s[i].GetVelocity()
  {
    seq(|s|, i requires 0 <= i < |s| => s[i].CopyToStaging())
  }

  /** Getting what was just set gives it back, and the other field is left alone. */
  lemma SetThenGet(cv: ControlVolume, p: real, v: Velocity2d)
    ensures cv.SetPressure(p).GetPressure() == p
    ensures cv.SetVelocity(v).GetVelocity() == v
    ensures cv.SetPressure(p).SetVelocity(v) == cv.SetVelocity(v).SetPressure(p)
    ensures cv.SetPressure(cv.GetPressure()) == cv && cv.SetVelocity(cv.GetVelocity()) == cv
  {
  }

  /**
   * A volume that the compute phase never stages keeps its value: committing right after
   * the pre-copy gives back the live pressure and velocity.
   */
  lemma CommitAfterCopyKeepsValue(cv: ControlVolume)
    ensures cv.CopyToStaging().Committed() == cv.CopyToStaging()
    ensures cv.CopyToStaging().Committed().GetPressure() == cv.GetPressure()
    ensures cv.CopyToStaging().Committed().GetVelocity() == cv.GetVelocity()
  {
  }
}
