/** The unit conversions behind the colour and waveform properties of the
    light bodies (lifx/lan/light.py).

    The colour record stores hue, saturation and brightness as 16-bit
    fractions of 65535; the properties present them in degrees (0-360) and
    percent (0-100). The waveform skew ratio is stored as a c_int16 offset
    by 32768. Python evaluates these with floats and `round`; the model uses
    exact rationals and `Rounding.RoundHalfEven`. */
module Units {
  import opened Bytes
  import opened Rounding

  /** The full-scale raw value of a colour component. */
  const RawMax: int := 65535

  /** Degrees, the unit of the hue property. */
  const HueScale: int := 360

  /** Percent, the unit of the saturation and brightness properties. */
  const PercentScale: int := 100

  /** Setter direction: `round(value / scale * 65535)` assigned to a
      c_uint16, which keeps the low 16 bits of whatever it is given. Inside
      the property's range the stored value is the nearest raw step, and
      at an exact tie between two steps it is the even one. */
  function ToRaw(value: real, scale: int): (r: u16)
    requires scale > 0
    ensures 0.0 <= value <= scale as real ==>
      Abs(r as real - value / scale as real * 65535.0) <= 0.5
    ensures (0.0 <= value <= scale as real &&
             Abs(r as real - value / scale as real * 65535.0) == 0.5) ==> r % 2 == 0
  {
    var x := value / scale as real * 65535.0;
    if 0.0 <= value <= scale as real then
      assert value / scale as real <= 1.0;
      var n := RoundHalfEven(x);
      RoundBounds(x, 0, RawMax);
      assert n % 0x1_0000 == n;
      n % 0x1_0000
    else
      RoundHalfEven(x) % 0x1_0000
  }

  /** Getter direction: `round(raw / 65535 * scale)`, always within the
      property's range and within one half of the exact proportion. */
  function FromRaw(raw: u16, scale: int): (r: int)
    requires scale > 0
    ensures 0 <= r <= scale
    ensures Abs(r as real - raw as real / 65535.0 * scale as real) <= 0.5
  {
    var q := raw as real / 65535.0;
    var x := q * scale as real;
    assert 0.0 <= q <= 1.0;
    assert scale as real - x == (1.0 - q) * scale as real;
    assert 0.0 <= x by {
      assert x == q * scale as real;
    }
    RoundBounds(x, 0, scale);
    RoundHalfEven(x)
  }

  lemma RoundTripDegrees(h: int)
    requires 0 <= h <= 360
    ensures FromRaw(ToRaw(h as real, 360), 360) == h
  {
    var x := h as real / 360.0 * 65535.0;
    var r := ToRaw(h as real, 360);
    var y := r as real / 65535.0 * 360.0;
    assert y - h as real == (r as real - x) * 360.0 / 65535.0;
    RoundNearest(y, h);
  }

  lemma RoundTripPercent(h: int)
    requires 0 <= h <= 100
    ensures FromRaw(ToRaw(h as real, 100), 100) == h
  {
    var x := h as real / 100.0 * 65535.0;
    var r := ToRaw(h as real, 100);
    var y := r as real / 65535.0 * 100.0;
    assert y - h as real == (r as real - x) * 100.0 / 65535.0;
    RoundNearest(y, h);
  }

  /** Every whole number of degrees or percent survives a store and a load:
      the raw step is fine enough that rounding never lands on a neighbour. */
  lemma RoundTrip(h: int, scale: int)
    requires scale == HueScale || scale == PercentScale
    requires 0 <= h <= scale
    ensures FromRaw(ToRaw(h as real, scale), scale) == h
  {
    if scale == HueScale {
      RoundTripDegrees(h);
    } else {
      RoundTripPercent(h);
    }
  }

  /** The State docstring: raw hue 21845 is 120 degrees, raw saturation
      65535 is 100 percent and raw brightness 65279 still rounds to 100. */
  lemma ColorDoctest()
    ensures FromRaw(21845, HueScale) == 120
    ensures FromRaw(65535, PercentScale) == 100
    ensures FromRaw(65279, PercentScale) == 100
  {
    RoundNearest(21845.0 / 65535.0 * 360.0, 120);
    RoundNearest(65535.0 / 65535.0 * 100.0, 100);
    RoundNearest(65279.0 / 65535.0 * 100.0, 100);
  }

  /** The skew_ratio setter: `round(value * 65535) - 32768` assigned to a
      c_int16, which wraps it into the signed 16-bit range. On the documented
      range 0..1 no wrap happens and the stored value, shifted by 32768, is the
      nearest raw step, the even one at an exact tie. */
  function SkewToRaw(value: real): (r: int)
    ensures -0x8000 <= r < 0x8000
    ensures 0.0 <= value <= 1.0 ==> Abs((r + 0x8000) as real - value * 65535.0) <= 0.5
    ensures 0.0 <= value <= 1.0 && Abs((r + 0x8000) as real - value * 65535.0) == 0.5 ==>
      (r + 0x8000) % 2 == 0
  {
    var n := RoundHalfEven(value * 65535.0);
    if 0.0 <= value <= 1.0 then
      RoundBounds(value * 65535.0, 0, RawMax);
      WrapI16(n - 0x8000)
    else
      WrapI16(n - 0x8000)
  }

  /** The skew_ratio getter as written: `round(raw / 65535) + 32768`. For
      every storable raw value the quotient lies within one half of zero, so
      the getter can only answer 32767 (raw -32768) or 32768. */
  function SkewFromRaw(raw: int): (r: int)
    requires -0x8000 <= raw < 0x8000
    ensures r == if raw == -0x8000 then 0x7FFF else 0x8000
  {
    var q := raw as real / 65535.0;
    if raw == -0x8000 then
      RoundNearest(q, -1);
      RoundHalfEven(q) + 0x8000
    else
      RoundNearest(q, 0);
      RoundHalfEven(q) + 0x8000
  }

  /** Ties go to the even raw step: saturation or brightness 50 percent is
      32767.5 steps and stores 32768, hue 180 degrees likewise, and 10
      percent (6553.5 steps over the rationals) stores 6554. */
  lemma TieDoctest()
    ensures ToRaw(50.0, PercentScale) == 32768
    ensures ToRaw(180.0, HueScale) == 32768
    ensures ToRaw(10.0, PercentScale) == 6554
  {
    assert 50.0 / 100.0 * 65535.0 == 32767.5;
    assert 180.0 / 360.0 * 65535.0 == 32767.5;
    assert 10.0 / 100.0 * 65535.0 == 6553.5;
  }

  /** The SetWaveform docstring: 0, one half and 1 store -32768, 0 and 32767. */
  lemma SkewDoctest()
    ensures SkewToRaw(0.0) == -32768
    ensures SkewToRaw(0.5) == 0
    ensures SkewToRaw(1.0) == 32767
  {
    RoundNearest(0.0, 0);
    assert RoundHalfEven(0.5 * 65535.0) == 32768;
    RoundNearest(65535.0, 65535);
  }

  /** The getter does not invert the setter: storing one half reads back as
      32768. */
  lemma SkewReadBack()
    ensures SkewFromRaw(SkewToRaw(0.5)) == 32768
  {
    SkewDoctest();
  }

  /** The evidently intended getter: undo the shift and the scale. */
  function IntendedSkewFromRaw(raw: int): (r: real)
    requires -0x8000 <= raw < 0x8000
    ensures 0.0 <= r <= 1.0
  {
    (raw + 0x8000) as real / 65535.0
  }

  /** The intended getter recovers any ratio in 0..1 to within half a raw step. */
  lemma IntendedSkewRoundTrip(value: real)
    requires 0.0 <= value <= 1.0
    ensures Abs(IntendedSkewFromRaw(SkewToRaw(value)) - value) <= 0.5 / 65535.0
  {
    var r := SkewToRaw(value);
    assert IntendedSkewFromRaw(r) - value == ((r + 0x8000) as real - value * 65535.0) / 65535.0;
  }
}
