/**
 * VelocityCurveGenerator: a tanh-shaped velocity profile from a start to an
 * end velocity. `tanh` is a parameter, so nothing about the transcendental
 * function is assumed beyond what a lemma states in its requires.
 */
module VelocityCurveGenerator {

  /** Sample i of a curve over `numPoints` intervals: time i/numPoints is stretched to [0, 2] and fed to tanh. */
  function Sample(tanh: real -> real, startVelocity: real, endVelocity: real, numPoints: int, i: nat): real
    requires numPoints != 0
  {
    var step := 1.0 / numPoints as real;
    var normalizedTime := (i as real * step) * 2.0;
    startVelocity + tanh(normalizedTime) * (endVelocity - startVelocity)
  }

  /** The samples 0, 1, .., count - 1. */
  function Samples(tanh: real -> real, startVelocity: real, endVelocity: real, numPoints: int, count: nat): (vs: seq<real>)
    requires numPoints != 0
  {
    seq(count, i requires 0 <= i < count => Sample(tanh, startVelocity, endVelocity, numPoints, i))
  }

  /** How many samples a curve has: the counter runs from 0 up to and including numPoints. */
  function SampleCount(numPoints: int): nat {
    if numPoints < 0 then 0 else numPoints + 1
  }

  /** The whole curve. */
  function Curve(tanh: real -> real, startVelocity: real, endVelocity: real, numPoints: int): seq<real>
    requires numPoints != 0
  {
    Samples(tanh, startVelocity, endVelocity, numPoints, SampleCount(numPoints))
  }

  /** A positive point count gives numPoints + 1 samples, a negative one none. */
  lemma CurveLength(tanh: real -> real, startVelocity: real, endVelocity: real, numPoints: int)
    requires numPoints != 0
    ensures numPoints > 0 ==> |Curve(tanh, startVelocity, endVelocity, numPoints)| == numPoints + 1
    ensures numPoints < 0 ==> Curve(tanh, startVelocity, endVelocity, numPoints) == []
  {
  }

  /** With tanh(0) = 0 the curve starts exactly at the start velocity. */
  lemma CurveFirst(tanh: real -> real, startVelocity: real, endVelocity: real, numPoints: int)
    requires numPoints > 0 && tanh(0.0) == 0.0
    ensures Curve(tanh, startVelocity, endVelocity, numPoints)[0] == startVelocity
  {
    assert (0 as real * (1.0 / numPoints as real)) * 2.0 == 0.0;
  }

  /** The curve ends at start + tanh(2) * (end - start), short of the end velocity itself. */
  lemma CurveLast(tanh: real -> real, startVelocity: real, endVelocity: real, numPoints: int)
    requires numPoints > 0
    ensures Curve(tanh, startVelocity, endVelocity, numPoints)[numPoints] ==
            startVelocity + tanh(2.0) * (endVelocity - startVelocity)
  {
    var n := numPoints as real;
    assert n * (1.0 / n) == 1.0;
    assert (numPoints as real * (1.0 / n)) * 2.0 == 2.0;
  }

  /** Scaling by a non-negative factor keeps the order. */
  lemma ScaleKeepsOrder(a: real, b: real, c: real)
    requires a <= b && 0.0 <= c
    ensures a * c <= b * c
  {
  }

  /** The normalized times of a positive point count stay inside [0, 2] and in order. */
  lemma NormalizedTimesOrdered(n: real, i: nat, j: nat)
    requires 0.0 < n && i <= j && j as real <= n
    ensures 0.0 <= (i as real * (1.0 / n)) * 2.0 <= (j as real * (1.0 / n)) * 2.0 <= 2.0
  {
    var step := 1.0 / n;
    assert 0.0 < step;
    ScaleKeepsOrder(i as real, j as real, step);
    ScaleKeepsOrder(j as real, n, step);
    assert n * step == 1.0;
  }

  /**
   * Where tanh is nondecreasing on [0, 2] the samples move monotonically from
   * the start velocity towards the end velocity.
   */
  lemma CurveMonotone(tanh: real -> real, startVelocity: real, endVelocity: real, numPoints: int, i: nat, j: nat)
    requires numPoints > 0 && i <= j <= numPoints
    requires startVelocity <= endVelocity
    requires forall x: real, y: real {:trigger tanh(x), tanh(y)} :: 0.0 <= x <= y <= 2.0 ==> tanh(x) <= tanh(y)
    ensures Curve(tanh, startVelocity, endVelocity, numPoints)[i] <= Curve(tanh, startVelocity, endVelocity, numPoints)[j]
  {
    var n := numPoints as real;
    var x := (i as real * (1.0 / n)) * 2.0;
    var y := (j as real * (1.0 / n)) * 2.0;
    NormalizedTimesOrdered(n, i, j);
    assert tanh(x) <= tanh(y);
    SamplesFollowTanh(tanh, startVelocity, endVelocity, numPoints, i, j);
  }

  /**
   * The mirror image: towards a lower end velocity (a deceleration) the
   * samples never increase.
   */
  lemma CurveMonotoneDown(tanh: real -> real, startVelocity: real, endVelocity: real, numPoints: int, i: nat, j: nat)
    requires numPoints > 0 && i <= j <= numPoints
    requires startVelocity >= endVelocity
    requires forall x: real, y: real {:trigger tanh(x), tanh(y)} :: 0.0 <= x <= y <= 2.0 ==> tanh(x) <= tanh(y)
    ensures Curve(tanh, startVelocity, endVelocity, numPoints)[i] >= Curve(tanh, startVelocity, endVelocity, numPoints)[j]
  {
    var n := numPoints as real;
    var x := (i as real * (1.0 / n)) * 2.0;
    var y := (j as real * (1.0 / n)) * 2.0;
    NormalizedTimesOrdered(n, i, j);
    assert tanh(x) <= tanh(y);
    SamplesFollowTanh(tanh, startVelocity, endVelocity, numPoints, i, j);
  }

  /** Two samples are ordered as their tanh values are, in the direction of the velocity change. */
  lemma SamplesFollowTanh(tanh: real -> real, startVelocity: real, endVelocity: real, numPoints: int, i: nat, j: nat)
    requires 0 < numPoints && i <= numPoints && j <= numPoints
    requires tanh((i as real * (1.0 / numPoints as real)) * 2.0) <= tanh((j as real * (1.0 / numPoints as real)) * 2.0)
    ensures startVelocity <= endVelocity ==>
              Curve(tanh, startVelocity, endVelocity, numPoints)[i] <= Curve(tanh, startVelocity, endVelocity, numPoints)[j]
    ensures startVelocity >= endVelocity ==>
              Curve(tanh, startVelocity, endVelocity, numPoints)[i] >= Curve(tanh, startVelocity, endVelocity, numPoints)[j]
  {
    var a := tanh((i as real * (1.0 / numPoints as real)) * 2.0);
    var b := tanh((j as real * (1.0 / numPoints as real)) * 2.0);
    CurveAt(tanh, startVelocity, endVelocity, numPoints, i);
    CurveAt(tanh, startVelocity, endVelocity, numPoints, j);
    if startVelocity <= endVelocity {
      ScaleKeepsOrder(a, b, endVelocity - startVelocity);
      assert Curve(tanh, startVelocity, endVelocity, numPoints)[i] == startVelocity + a * (endVelocity - startVelocity);
      assert Curve(tanh, startVelocity, endVelocity, numPoints)[j] == startVelocity + b * (endVelocity - startVelocity);
    } else {
      ScaleKeepsOrder(a, b, startVelocity - endVelocity);
      assert Curve(tanh, startVelocity, endVelocity, numPoints)[i] == startVelocity - a * (startVelocity - endVelocity);
      assert Curve(tanh, startVelocity, endVelocity, numPoints)[j] == startVelocity - b * (startVelocity - endVelocity);
    }
  }

  lemma CurveAt(tanh: real -> real, startVelocity: real, endVelocity: real, numPoints: int, i: nat)
    requires 0 < numPoints && i <= numPoints
    ensures Curve(tanh, startVelocity, endVelocity, numPoints)[i] ==
            startVelocity + tanh((i as real * (1.0 / numPoints as real)) * 2.0) * (endVelocity - startVelocity)
  {
  }

  class VelocityCurveGenerator {
    const tanh: real -> real
    const startVelocity: real
    const endVelocity: real
    const numPoints: int
    var velocities: seq<real>

    constructor (tanh: real -> real, startVelocity: real, endVelocity: real, numPoints: int := 100)
      requires numPoints != 0
      ensures this.tanh == tanh && this.startVelocity == startVelocity
      ensures this.endVelocity == endVelocity && this.numPoints == numPoints
      ensures velocities == Curve(tanh, startVelocity, endVelocity, numPoints)
    {
      this.tanh := tanh;
      this.startVelocity := startVelocity;
      this.endVelocity := endVelocity;
      this.numPoints := numPoints;
      new;
      GenerateCurve();
    }

    function GetVelocities(): (vs: seq<real>)
      reads this
      ensures vs == velocities
    {
      velocities
    }

    /** Clears the samples and appends them one by one. */
    method GenerateCurve()
      requires numPoints != 0
      modifies this`velocities
      ensures velocities == Curve(tanh, startVelocity, endVelocity, numPoints)
    {
      velocities := [];
      var range := endVelocity - startVelocity;
      var step := 1.0 / numPoints as real;
      var i := 0;
      while i <= numPoints
        invariant 0 <= i <= SampleCount(numPoints)
        invariant velocities == Samples(tanh, startVelocity, endVelocity, numPoints, i)
        decreases numPoints - i
      {
        var t := i as real * step;
        var normalizedTime := t * 2.0;
        var tanhValue := tanh(normalizedTime);
        var velocity := startVelocity + tanhValue / 1.0 * range;
        assert tanhValue / 1.0 == tanhValue;
        assert normalizedTime == (i as real * (1.0 / numPoints as real)) * 2.0;
        assert velocity == Sample(tanh, startVelocity, endVelocity, numPoints, i);
        assert Samples(tanh, startVelocity, endVelocity, numPoints, i + 1) ==
               Samples(tanh, startVelocity, endVelocity, numPoints, i) + [velocity];
        velocities := velocities + [velocity];
        i := i + 1;
      }
    }
  }
}
