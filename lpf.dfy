/** The integer exponential low-pass filter used to smooth battery-voltage
    samples. The filter keeps 256 times the smoothed value in a 32-bit signed
    long; each sample moves it by 1/256 of the gap. Right shifts of signed
    values are arithmetic on the target, that is floor division by 256. */
module Lpf {
  import opened Avr

  const LpfFilterShift: nat := 8
  const Scale: int := 256

  /** x >> LPF_FILTER_SHIFT on a signed value: the floor of x / 256. */
  function Shr8(x: int): (r: int)
    ensures r * Scale <= x < r * Scale + Scale
  {
    x / Scale
  }

  /** The range 16-bit seeds and samples keep the filter in: 256 times the
      16-bit range, well inside a signed long. */
  ghost predicate InRange(filter: int)
  {
    -0x8000 * Scale <= filter <= 0x7FFF * Scale
  }

  /** The filter after adding sample v to filter value f: 255/256 of f,
      rounded up, plus the sample. */
  function Filtered(f: int, v: int): (r: int)
    ensures 255 * f <= (r - v) * Scale <= 255 * f + 255
  {
    f - Shr8(f) + v
  }

  /** seed_lpf as written: `seed_val << 8` is evaluated at 16-bit int
      width, which wraps (two's complement, as GCC does) for seeds outside
      -128 .. 127. */
  function SeedAsWritten(seedVal: Int16): (f: Int16)
    ensures (f - seedVal * Scale) % 0x1_0000 == 0
  {
    var w := (seedVal * Scale) % 0x1_0000;
    if w > 0x7FFF then w - 0x1_0000 else w
  }

  /** As written, a seed reads back as itself exactly when it lies in
      -128 .. 127; a battery voltage in millivolts never does. */
  lemma SeedAsWrittenReadsBackIff(s: Int16)
    ensures Shr8(SeedAsWritten(s)) == s <==> -128 <= s <= 127
  {
    var f := SeedAsWritten(s);
    if -128 <= s <= 127 {
      assert f == s * Scale;
    } else {
      assert -128 <= Shr8(f) <= 127;
    }
  }

  /** A seed of 200 is stored as -14336 and reads back as -56. */
  lemma SeedOverflowAt200()
    ensures SeedAsWritten(200) == -14336 && Shr8(SeedAsWritten(200)) == -56
  {
  }

  /** A filter seeded with v stays put when v is added. */
  lemma FixedPoint(v: int)
    ensures Filtered(v * Scale, v) == v * Scale
    ensures Shr8(Filtered(v * Scale, v)) == v
  {
  }

  /** A sample at least the current output never lowers the filter; one at
      most the output never raises it. */
  lemma Monotone(f: int, v: int)
    ensures v >= Shr8(f) ==> Filtered(f, v) >= f
    ensures v <= Shr8(f) ==> Filtered(f, v) <= f
  {
  }

  /** f - floor(f / 256) grows with f. */
  lemma KeepIsMonotone(f: int, g: int)
    requires f <= g
    ensures f - Shr8(f) <= g - Shr8(g)
  {
    var a, b := Shr8(f), Shr8(g);
    assert (b - a - 1) * Scale < g - f;
  }

  /** 16-bit samples never push the filter out of range, so the signed
      long never overflows. */
  lemma StaysInRange(f: int, v: Int16)
    requires InRange(f)
    ensures InRange(Filtered(f, v))
  {
    KeepIsMonotone(f, 0x7FFF * Scale);
    KeepIsMonotone(-0x8000 * Scale, f);
    assert Shr8(0x7FFF * Scale) == 0x7FFF;
    assert Shr8(-0x8000 * Scale) == -0x8000;
  }

  /** Adding the same sample v again and again moves the filter toward
      v * 256 without ever overshooting it or moving away from it. */
  lemma TowardTarget(f: int, v: int)
    ensures var e, e' := f - v * Scale, Filtered(f, v) - v * Scale;
      (e >= 0 ==> 0 <= e' <= e) && (e <= 0 ==> e <= e' <= 0)
  {
    var e := f - v * Scale;
    assert Shr8(f) == Shr8(e) + v by {
      assert (Shr8(e) + v) * Scale <= f < (Shr8(e) + v) * Scale + Scale;
    }
  }

  class LowPassFilter {
    /** The static `filter` of the source. */
    var filter: Int32

    ghost predicate Valid()
      reads this
    {
      InRange(filter)
    }

    /** The static starts at 0. */
    constructor ()
      ensures Valid() && filter == 0
    {
      filter := 0;
    }

    /** seed_lpf with the shift done at the width of `filter`, a signed
        long, so that no 16-bit seed overflows (see SeedAsWritten). */
    method SeedLpf(seedVal: Int16)
      modifies this
      ensures Valid() && filter == seedVal * Scale
    {
      filter := seedVal * Scale;
    }

    method AddValToLpf(valToAdd: Int16)
      requires Valid()
      modifies this
      ensures Valid() && filter == Filtered(old(filter), valToAdd)
    {
      StaysInRange(filter, valToAdd);
      filter := filter - Shr8(filter) + valToAdd;
    }

    /** get_curr_lpf_val: the filter divided by 256, rounded down. */
    function GetCurrLpfVal(): (r: int)
      reads this
      ensures r * Scale <= filter < r * Scale + Scale
    {
      Shr8(filter)
    }
  }

  /** After SeedLpf(s), whose filter is s * 256, GetCurrLpfVal returns s, for
      every 16-bit s. */
  lemma SeedThenRead(lpf: LowPassFilter, s: Int16)
    requires lpf.filter == s * Scale
    ensures lpf.GetCurrLpfVal() == s
  {
  }
}
