/** The game's random source (`random` in Source/engine.cpp): any outcome it allows, or,
    to say what the code does when it can, always the highest one. */
module Rng {
  datatype Dice = Any | Highest

  method Random(dice: Dice, v: int) returns (r: int)
    ensures v <= 0 ==> r == 0
    ensures v > 0 ==> 0 <= r < v
    ensures v > 0 && dice.Highest? ==> r == v - 1
  {
    if v <= 0 {
      r := 0;
    } else if dice.Highest? {
      r := v - 1;
    } else {
      r :| 0 <= r < v;
    }
  }
}
