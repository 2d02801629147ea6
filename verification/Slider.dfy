/** Menu sliders of Source/gmenu.cpp. */
module Slider {
  import opened CInt

  const INT_MAX := 0x7FFF_FFFF

  type uint32 = v: int | 0 <= v < 0x1_0000_0000

  // dwFlags is a number of two digits of 12 bits under 8 bits of flags. Masking with
  // 0xFFF, 0xFFF000 and 0xFF000000 takes it apart, and `|=` of a digit into a place that
  // has been masked away adds it.

  /** Low 12 bits of dwFlags: the position. */
  function Step(flags: uint32): (n: nat)
    ensures n < 0x1000
  {
    flags % 0x1000
  }

  /** The next 12 bits: the number of positions. */
  function Field(flags: uint32): (n: nat)
    ensures n < 0x1000
  {
    flags / 0x1000 % 0x1000
  }

  /** The flags proper. */
  function Top(flags: uint32): (n: nat)
    ensures n < 0x100
  {
    flags / 0x100_0000
  }

  lemma Digits(flags: uint32)
    ensures flags == 0x100_0000 * Top(flags) + 0x1000 * Field(flags) + Step(flags)
  {
    assert flags / 0x1000 / 0x1000 == flags / 0x100_0000;
  }

  lemma DigitsOf(t: nat, f: nat, s: nat)
    requires t < 0x100 && f < 0x1000 && s < 0x1000
    ensures var x := 0x100_0000 * t + 0x1000 * f + s; x < 0x1_0000_0000 && Top(x) == t && Field(x) == f && Step(x) == s
  {
    var x := 0x100_0000 * t + 0x1000 * f + s;
    assert x / 0x1000 == 0x1000 * t + f;
  }

  /** The number of steps in use: at least two. */
  function Steps(flags: uint32): nat {
    if Field(flags) < 2 then 2 else Field(flags)
  }

  /** The position for a value, and the value of a position, with n steps over m units. */
  function Position(m: nat, n: nat, v: nat): nat
    requires m > 0
  {
    ((m - 1) / 2 + v * n) / m
  }

  function Value(m: nat, n: nat, step: nat): nat
    requires n > 0
  {
    (step * m + (n - 1) / 2) / n
  }

  /** Setting the slider to the value it shows does not move it, if the steps are not
      finer than the values. */
  lemma PositionOfValue(m: nat, n: nat, step: nat)
    requires 2 <= n <= m
    ensures Position(m, n, Value(m, n, step)) == step
  {
    var a, b, g := (n - 1) / 2, (m - 1) / 2, Value(m, n, step);
    DivBounds(step * m + a, n);
    if m == n {
      DivUnique(step * m + a, n, step);
    }
    DivUnique(b + g * n, m, step);
  }

  /** The end positions show the end values. */
  lemma EndValues(m: nat, n: nat)
    requires n > 0
    ensures Value(m, n, 0) == 0 && Value(m, n, n) == m
  {
    DivUnique((n - 1) / 2, n, 0);
    DivUnique(n * m + (n - 1) / 2, n, m);
  }

  lemma ValueMonotone(m: nat, n: nat, s: nat, t: nat)
    requires n > 0 && s <= t
    ensures Value(m, n, s) <= Value(m, n, t)
  {
    MulStep(s, t, m);
    DivMonotone(s * m + (n - 1) / 2, t * m + (n - 1) / 2, n);
  }

  lemma PositionMonotone(m: nat, n: nat, v: nat, w: nat)
    requires m > 0 && v <= w
    ensures Position(m, n, v) <= Position(m, n, w)
  {
    MulStep(v, w, n);
    DivMonotone((m - 1) / 2 + v * n, (m - 1) / 2 + w * n, m);
  }

  lemma EndPositions(m: nat, n: nat)
    requires m > 0
    ensures Position(m, n, 0) == 0 && Position(m, n, m) == n
  {
    DivUnique((m - 1) / 2, m, 0);
    DivUnique((m - 1) / 2 + m * n, m, n);
  }

  /** Both are the nearest: off by at most half a step, or half a unit. */
  lemma Nearest(m: nat, n: nat, v: nat, step: nat)
    requires m > 0 && n > 0
    ensures 0 - m <= 2 * (Position(m, n, v) * m - v * n) <= m
    ensures 0 - n <= 2 * (Value(m, n, step) * n - step * m) <= n
  {
    DivBounds((m - 1) / 2 + v * n, m);
    DivBounds(step * m + (n - 1) / 2, n);
  }

  ghost predicate AllStay(m: nat, n: nat)
    requires m > 0 && n > 0
  {
    forall step: nat :: step <= n ==> Position(m, n, Value(m, n, step)) == step
  }

  /** If every position stays, their values differ, so there are at least n of them above 0. */
  lemma {:induction false} ValuesSpread(m: nat, n: nat, step: nat)
    requires m > 0 && n > 0 && step <= n && AllStay(m, n)
    ensures Value(m, n, step) >= step
    decreases step
  {
    hide Value, Position, AllStay;
    if step > 0 {
      ValuesSpread(m, n, step - 1);
      ValueMonotone(m, n, step - 1, step);
      ValuesDiffer(m, n, step);
    } else {
      EndValues(m, n);
    }
  }

  lemma ValuesDiffer(m: nat, n: nat, step: nat)
    requires m > 0 && n > 0 && 1 <= step <= n && AllStay(m, n)
    ensures Value(m, n, step - 1) != Value(m, n, step)
  {
    assert Position(m, n, Value(m, n, step - 1)) == step - 1 && Position(m, n, Value(m, n, step)) == step;
  }

  /** All positions survive a get and a set exactly when there are no more steps than units. */
  lemma AllStayIff(m: nat, n: nat)
    requires m > 0 && n >= 2
    ensures AllStay(m, n) <==> n <= m
  {
    if n <= m {
      forall step: nat | step <= n ensures Position(m, n, Value(m, n, step)) == step { PositionOfValue(m, n, step); }
    } else if AllStay(m, n) {
      ValuesSpread(m, n, n);
      EndValues(m, n);
    }
  }

  /** A value that a position shows comes back from set and get. */
  lemma ValueOfPosition(m: nat, n: nat, v: nat)
    requires 2 <= n <= m
    ensures Position(m, n, Value(m, n, Position(m, n, v))) == Position(m, n, v)
  {
    PositionOfValue(m, n, Position(m, n, v));
  }

  class TMenuItem {
    var dwFlags: uint32

    constructor (flags: uint32)
      ensures dwFlags == flags
    {
      dwFlags := flags;
    }

    method NumSteps() returns (n: nat)
      ensures n == Steps(dwFlags)
    {
      n := Field(dwFlags);
      if n < 2 {
        n := 2;
      }
    }

    /** `gmenu_slider_set`, for a value of the range and no integer overflow. */
    method SliderSet(min: int, max: int, value: int)
      requires min < max && min <= value <= max && (max - min) * (Steps(dwFlags) + 1) <= INT_MAX
      modifies this
      ensures Step(dwFlags) == Position(max - min, Steps(dwFlags), value - min) <= Steps(dwFlags)
      ensures Field(dwFlags) == old(Field(dwFlags)) && Top(dwFlags) == old(Top(dwFlags))
    {
      hide Step, Field, Top;
      var nSteps := NumSteps();
      PositionMonotone(max - min, nSteps, value - min, max - min);
      EndPositions(max - min, nSteps);
      var p := ((max - min - 1) / 2 + (value - min) * nSteps) / (max - min);
      PutStep(p);
    }

    /** `dwFlags &= 0xFFFFF000; dwFlags |= p` */
    method PutStep(p: nat)
      requires p < 0x1000
      modifies this
      ensures Step(dwFlags) == p && Field(dwFlags) == old(Field(dwFlags)) && Top(dwFlags) == old(Top(dwFlags))
    {
      Digits(dwFlags);
      DigitsOf(Top(dwFlags), Field(dwFlags), p);
      dwFlags := dwFlags - dwFlags % 0x1000;
      dwFlags := dwFlags + p;
    }

    /** `gmenu_slider_get` */
    method SliderGet(min: int, max: int) returns (v: int)
      requires min < max && Step(dwFlags) * (max - min) + (Steps(dwFlags) - 1) / 2 <= INT_MAX
      ensures v == min + Value(max - min, Steps(dwFlags), Step(dwFlags)) && v >= min
      ensures Step(dwFlags) <= Steps(dwFlags) ==> v <= max
    {
      var step := Step(dwFlags);
      var nSteps := NumSteps();
      if step <= nSteps {
        ValueMonotone(max - min, nSteps, step, nSteps);
      }
      EndValues(max - min, nSteps);
      v := min + (step * (max - min) + (nSteps - 1) / 2) / nSteps;
    }

    /** `gmenu_slider_steps` */
    method SliderSteps(steps: nat)
      modifies this
      ensures Field(dwFlags) == steps % 0x1000
      ensures Step(dwFlags) == old(Step(dwFlags)) && Top(dwFlags) == old(Top(dwFlags))
    {
      Digits(dwFlags);
      DigitsOf(Top(dwFlags), 0, Step(dwFlags));
      DigitsOf(Top(dwFlags), steps % 0x1000, Step(dwFlags));
      dwFlags := dwFlags - 0x1000 * (dwFlags / 0x1000 % 0x1000);
      dwFlags := dwFlags + 0x1000 * (steps % 0x1000);
    }
  }
}
