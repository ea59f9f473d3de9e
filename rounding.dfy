/** Python's `round(x, n)` on the decimal grid of step 10^-n, half to even. */
module Rounding {

  function Pow10(n: nat): (r: nat)
    ensures r >= 1
  {
    if n == 0 then 1 else 10 * Pow10(n - 1)
  }

  /** The number of grid steps nearest to `x`; a value exactly halfway between two steps
      goes to the even one. */
  function Steps(x: real, scale: real): int {
    HalfEven(x * scale + 0.5)
  }

  /** `y.Floor`, except that an odd whole `y` (a tie before the shift by 0.5) steps back to
      the even integer below. */
  function HalfEven(y: real): int {
    if y.Floor as real == y && y.Floor % 2 == 1 then y.Floor - 1 else y.Floor
  }

  /** `x` rounded to `places` decimals: the nearest multiple of 10^-places, an exact tie
      going to the even multiple, so the result is at most half a step away on either side. */
  function Round(x: real, places: nat): (r: real)
    ensures -1.0 / (2 * Pow10(places)) as real <= r - x <= 1.0 / (2 * Pow10(places)) as real
    ensures OnGrid(r, places)
  {
    var scale := Pow10(places) as real;
    var k := Steps(x, scale);
    assert k as real - 0.5 <= x * scale <= k as real + 0.5;
    DivScale(k, scale);
    var e := k as real - x * scale;
    DivMonotone(-0.5, e, scale);
    DivMonotone(e, 0.5, scale);
    assert e / scale == k as real / scale - x;
    k as real / scale
  }

  /** At an exact tie the number of steps is even: half goes to even, as Python's `round` does. */
  lemma {:induction false} TiesToEven(x: real, places: nat)
    requires (x * Pow10(places) as real + 0.5).Floor as real == x * Pow10(places) as real + 0.5
    ensures Steps(x, Pow10(places) as real) % 2 == 0
    ensures Steps(x, Pow10(places) as real) as real == x * Pow10(places) as real + 0.5
            || Steps(x, Pow10(places) as real) as real == x * Pow10(places) as real - 0.5
  {
  }

  /** Values exactly halfway on the binary grid round to even: 0.0625 to 3 places is 0.062,
      22.5 to whole units is 22, and 99.625 to 2 places is 99.62. */
  lemma TieExamples()
    ensures Round(0.0625, 3) == 0.062
    ensures Round(22.5, 0) == 22.0
    ensures Round(99.625, 2) == 99.62
  {
    assert Pow10(3) == 1000 && Pow10(2) == 100 && Pow10(0) == 1;
    assert Steps(0.0625, 1000.0) == 62;
    assert Steps(22.5, 1.0) == 22;
    assert Steps(99.625, 100.0) == 9962;
  }

  /** `r` has at most `places` decimals. */
  ghost predicate OnGrid(r: real, places: nat) {
    exists k: int {:trigger k as real} :: r == k as real / Pow10(places) as real
  }

  lemma DivScale(k: int, scale: real)
    requires scale >= 1.0
    ensures (k as real / scale) * scale == k as real
  {
  }

  lemma DivMonotone(a: real, b: real, s: real)
    requires a <= b && s > 0.0
    ensures a / s <= b / s
  {
    assert b / s - a / s == (b - a) / s;
  }

  /** Rounding never reverses the order of two values. */
  lemma {:induction false} RoundMonotone(x: real, y: real, places: nat)
    requires x <= y
    ensures Round(x, places) <= Round(y, places)
  {
    var kx, ky := Steps(x, Pow10(places) as real), Steps(y, Pow10(places) as real);
    MulMonotone(x, y, Pow10(places) as real);
    StepsMonotone(x, y, Pow10(places) as real);
    RoundIs(x, places, kx);
    RoundIs(y, places, ky);
    DivMonotone(kx as real, ky as real, Pow10(places) as real);
  }

  /** `Round` divides the step count by the scale. */
  lemma RoundIs(x: real, places: nat, k: int)
    requires k == Steps(x, Pow10(places) as real)
    ensures Round(x, places) == k as real / Pow10(places) as real
  {
  }

  lemma MulMonotone(a: real, b: real, s: real)
    requires a <= b && s >= 0.0
    ensures a * s <= b * s
  {
    assert b * s - a * s == (b - a) * s;
  }

  /** The tie-to-even step count never decreases. */
  lemma StepsMonotone(x: real, y: real, scale: real)
    requires x * scale <= y * scale
    ensures Steps(x, scale) <= Steps(y, scale)
  {
  }

  /** A value already on the grid is left unchanged. */
  lemma {:induction false} RoundOnGrid(k: int, places: nat)
    ensures Round(k as real / Pow10(places) as real, places) == k as real / Pow10(places) as real
  {
    var scale := Pow10(places) as real;
    DivScale(k, scale);
    assert (k as real / scale) * scale + 0.5 == k as real + 0.5;
    assert Steps(k as real / scale, scale) == k;
  }

  /** Whole numbers are on every grid; in particular 0 and 100 round to themselves. */
  lemma RoundWhole(n: int, places: nat)
    ensures Round(n as real, places) == n as real
  {
    var scale := Pow10(places);
    RoundOnGrid(n * scale, places);
    assert (n * scale) as real / scale as real == n as real;
  }
}
