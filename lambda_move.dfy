// LambdaMove: a Monte Carlo move on the alchemical coordinate lambda of an
// orthogonal-space random walk. A move adds a normally distributed step to
// the walk's lambda and reflects the result back towards 0..1; reverting
// restores the lambda read at the start of the last move.

module LambdaMoves {

  /** The single reflection `move` applies: 2 - x above 1, |x| below 0, x itself otherwise. */
  function Reflect(x: real): (r: real)
    ensures r == x || r == 2.0 - x || r == -x
    ensures x >= 0.0 ==> r <= 1.0
    ensures x <= 1.0 ==> r >= 0.0
  {
    if x > 1.0 then 2.0 - x
    else if x < 0.0 then -x
    else x
  }

  function Abs(x: real): real
  {
    if x < 0.0 then -x else x
  }

  /** Reflection about 0 and 1 as a triangle wave: the distance of |x| from 1, taken from 1. */
  function Fold(x: real): (r: real)
    ensures -1.0 <= x <= 2.0 ==> 0.0 <= r <= 1.0
  {
    1.0 - Abs(1.0 - Abs(x))
  }

  /** A proposal already in 0..1 is kept as it is. */
  lemma ReflectKeepsUnitInterval(x: real)
    requires 0.0 <= x <= 1.0
    ensures Reflect(x) == x
  {
  }

  /**
   * On -1..2, that is, for any step of at most 1 from a lambda in 0..1,
   * reflecting once is the full reflection into 0..1.
   */
  lemma ReflectIsFold(x: real)
    requires -1.0 <= x <= 2.0
    ensures Reflect(x) == Fold(x) && 0.0 <= Reflect(x) <= 1.0
  {
  }

  /** From a lambda in 0..1, a step of at most 1 either way stays in 0..1. */
  lemma SmallStepStaysInRange(current: real, dL: real)
    requires 0.0 <= current <= 1.0 && -1.0 <= dL <= 1.0
    ensures 0.0 <= Reflect(current + dL) <= 1.0
  {
    ReflectIsFold(current + dL);
  }

  /** A step of more than 1 can leave 0..1, since the reflection is applied once. */
  lemma LargeStepEscapes()
    ensures Reflect(0.5 + 2.0) == -0.5
    ensures Reflect(0.5 - 2.5) == 2.0
  {
  }

  /** The random walk's state as far as the move sees it: its lambda. */
  class Osrw {
    var lambda: real

    constructor(theLambda: real)
      ensures lambda == theLambda
    {
      lambda := theLambda;
    }

    /** `setLambda(l)`. */
    method SetLambda(l: real)
      modifies this
      ensures lambda == l
    {
      lambda := l;
    }
  }

  class LambdaMove {
    /** Standard deviation of the step distribution. */
    const sigma: real
    /** The lambda read at the start of the most recent move. */
    var currentLambda: real
    const osrw: Osrw

    /**
     * `new LambdaMove(currentLambda, osrw)` as written: the walk's lambda is
     * assigned to the parameter, which shadows the field, so the field keeps
     * its initial 0.0.
     */
    constructor(currentLambdaArg: real, theOsrw: Osrw)
      ensures osrw == theOsrw && sigma == 0.1 && currentLambda == 0.0
    {
      sigma := 0.1;
      currentLambda := 0.0;
      osrw := theOsrw;
      var shadow := currentLambdaArg;
      shadow := theOsrw.lambda;
    }

    /** The constructor with the walk's lambda stored in the field, as intended. */
    constructor Corrected(currentLambdaArg: real, theOsrw: Osrw)
      ensures osrw == theOsrw && sigma == 0.1 && currentLambda == theOsrw.lambda
    {
      sigma := 0.1;
      osrw := theOsrw;
      currentLambda := theOsrw.lambda;
    }

    /**
     * `move()`, with the step dL drawn from the normal distribution of mean
     * 0 and deviation sigma given as an input: reads the walk's lambda,
     * adds dL, reflects once, and sets the walk's lambda to the result.
     */
    method Move(dL: real)
      modifies this, osrw
      ensures currentLambda == old(osrw.lambda)
      ensures osrw.lambda == Reflect(old(osrw.lambda) + dL)
      ensures 0.0 <= old(osrw.lambda) <= 1.0 && -1.0 <= dL <= 1.0 ==> 0.0 <= osrw.lambda <= 1.0
    {
      currentLambda := osrw.lambda;
      var newLambda := currentLambda + dL;
      if newLambda > 1.0 {
        newLambda := 2.0 - newLambda;
      } else if newLambda < 0.0 {
        newLambda := Abs(newLambda);
      }
      osrw.SetLambda(newLambda);
      if 0.0 <= currentLambda <= 1.0 && -1.0 <= dL <= 1.0 {
        SmallStepStaysInRange(currentLambda, dL);
      }
    }

    /** `revertMove()`: sets the walk's lambda back to the one the last move read. */
    method RevertMove()
      modifies osrw
      ensures osrw.lambda == currentLambda
    {
      osrw.SetLambda(currentLambda);
    }

    /** A move followed by its revert leaves the walk's lambda where it was. */
    method MoveThenRevert(dL: real)
      modifies this, osrw
      ensures osrw.lambda == old(osrw.lambda) && currentLambda == old(osrw.lambda)
    {
      Move(dL);
      RevertMove();
    }
  }

  /**
   * With the constructor as written, reverting before any move sets the
   * walk's lambda to 0.0 whatever it was.
   */
  method RevertBeforeMove(start: real) returns (l: real)
    ensures l == 0.0
  {
    var walk := new Osrw(start);
    var mover := new LambdaMove(start, walk);
    mover.RevertMove();
    l := walk.lambda;
  }

  /** With the corrected constructor, reverting before any move changes nothing. */
  method RevertBeforeMoveCorrected(start: real) returns (l: real)
    ensures l == start
  {
    var walk := new Osrw(start);
    var mover := new LambdaMove.Corrected(start, walk);
    mover.RevertMove();
    l := walk.lambda;
  }
}
