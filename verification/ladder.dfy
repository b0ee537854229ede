/** The `ladder` object whose methods change `step` and return the object
    itself so that calls chain, and the `shape` object's `diameter`. What
    `showStep` shows with `alert` is recorded in a list of shown values. */
module ThisKeyword {

  class Ladder {
    var step: int
    /** Every value `showStep` has shown, oldest first. */
    var shown: seq<int>

    constructor ()
      ensures step == 0 && shown == []
    {
      step := 0;
      shown := [];
    }

    method Up() returns (self: Ladder)
      modifies this
      ensures self == this
      ensures step == old(step) + 1 && shown == old(shown)
    {
      step := step + 1;
      return this;
    }

    method Down() returns (self: Ladder)
      modifies this
      ensures self == this
      ensures step == old(step) - 1 && shown == old(shown)
    {
      step := step - 1;
      return this;
    }

    method ShowStep() returns (self: Ladder)
      modifies this
      ensures self == this
      ensures step == old(step) && shown == old(shown) + [step]
    {
      shown := shown + [step];
      return this;
    }
  }

  /** The chain `ladder.up().up().down().showStep().down().showStep()`
      shows 1 and then 0. */
  method ChainDemo() returns (shownValues: seq<int>, finalStep: int)
    ensures shownValues == [1, 0]
    ensures finalStep == 0
  {
    var ladder := new Ladder();
    var l := ladder.Up();
    l := l.Up();
    l := l.Down();
    l := l.ShowStep();
    l := l.Down();
    l := l.ShowStep();
    shownValues, finalStep := ladder.shown, ladder.step;
  }

  /** The `shape` object: its radius is fixed at creation. */
  datatype Shape = Shape(radius: int)

  /** `diameter()` reads the radius through `this`. */
  function Diameter(shape: Shape): (d: int)
    ensures d % 2 == 0 && d / 2 == shape.radius
  {
    shape.radius * 2
  }

  /** The source's shape has radius 10 and a diameter of 20. */
  lemma ShapeSample()
    ensures Diameter(Shape(10)) == 20
  {
  }
}
