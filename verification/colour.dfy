/** `bv_to_temperature` and `temperature_to_rgb`.  The closed-form curves
    (the temperature formula, and the logarithm and power curves of the
    colour mapping) are left abstract as the fields of `Curves`; what is
    modelled is the branch structure around them, the clamping, and the
    hexadecimal code. */
module Colour {
  import opened Optional
  import opened Photometry
  import opened Hex

  /** The numeric curves, each given as a function of `t = temp_k / 100`
      (or of the colour index for `temperature`).  `temperature` answers
      `None` when the formula's division by `0.92·bv + 1.7` or
      `0.92·bv + 0.62` raises. */
  datatype Curves = Curves(
    temperature: real -> Option<Float>,  // 4600·(1/(0.92·bv + 1.7) + 1/(0.92·bv + 0.62))
    coolGreen: real -> Float,            // 99.47·ln t − 161.12
    warmBlue: real -> Float,             // 138.51·ln(t − 10) − 305.04
    hotRed: real -> Float,               // 329.69·(t − 60)^−0.1332
    hotGreen: real -> Float)             // 288.12·(t − 60)^−0.0755

  /** `bv_to_temperature`: a NaN colour index gives a NaN temperature
      without raising; a finite one goes through the formula. */
  function BvToTemperature(bv: Float, k: Curves): Option<Float>
  {
    match bv
    case NaN => Some(NaN)
    case Finite(x) => k.temperature(x)
  }

  /** Red, green and blue before clipping. */
  datatype Channels = Channels(r: Float, g: Float, b: Float)

  /** The piecewise mapping.  A NaN temperature fails `t < 66` and lands in
      the hot branch, where the powers of NaN are NaN. */
  function RawChannels(temp: Float, k: Curves): (c: Channels)
    ensures c.r == Finite(255.0) || c.b == Finite(255.0)
    ensures temp.NaN? ==> c.r.NaN? && c.g.NaN? && c.b == Finite(255.0)
    ensures temp.Finite? && temp.x / 100.0 < 66.0 ==>
      c.r == Finite(255.0) && c.g == k.coolGreen(temp.x / 100.0)
    ensures temp.Finite? && temp.x / 100.0 < 19.0 ==> c.b == Finite(0.0)
    ensures temp.Finite? && 19.0 <= temp.x / 100.0 < 66.0 ==> c.b == k.warmBlue(temp.x / 100.0)
    ensures temp.Finite? && temp.x / 100.0 >= 66.0 ==>
      c == Channels(k.hotRed(temp.x / 100.0), k.hotGreen(temp.x / 100.0), Finite(255.0))
  {
    match temp
    case NaN => Channels(NaN, NaN, Finite(255.0))
    case Finite(kelvin) =>
      var t := kelvin / 100.0;
      if t < 66.0 then
        Channels(Finite(255.0), k.coolGreen(t), if t < 19.0 then Finite(0.0) else k.warmBlue(t))
      else
        Channels(k.hotRed(t), k.hotGreen(t), Finite(255.0))
  }

  /** `np.clip(v, 0, 255)`; NaN stays NaN. */
  function Clip(v: Float): (c: Float)
    ensures c.NaN? <==> v.NaN?
    ensures c.Finite? ==> 0.0 <= c.x <= 255.0
    ensures v.Finite? && 0.0 <= v.x <= 255.0 ==> c == v
    ensures v.Finite? && v.x < 0.0 ==> c == Finite(0.0)
    ensures v.Finite? && v.x > 255.0 ==> c == Finite(255.0)
  {
    match v
    case NaN => NaN
    case Finite(x) => Finite(if x < 0.0 then 0.0 else if x > 255.0 then 255.0 else x)
  }

  /** The normalised triple. */
  datatype Rgb = Rgb(r: real, g: real, b: real)

  predicate InUnit(x: real)
  {
    0.0 <= x <= 1.0
  }

  /** Python `int()` on a finite float: truncation toward zero. */
  function Truncate(x: real): (n: int)
    ensures x >= 0.0 ==> 0 <= n && n as real <= x < n as real + 1.0
    ensures x < 0.0 ==> n <= 0 && n as real - 1.0 < x <= n as real
  {
    if x >= 0.0 then x.Floor else -((-x).Floor)
  }

  /** Division of a clipped channel by 255. */
  function Normalise(x: real): (n: real)
    requires 0.0 <= x <= 255.0
    ensures InUnit(n)
  {
    x / 255.0
  }

  /** `int(n * 255)` for a normalised channel: a byte. */
  function ChannelByte(n: real): (b: int)
    requires InUnit(n)
    ensures 0 <= b < 256
  {
    assert 0.0 <= n * 255.0 <= 255.0;
    Truncate(n * 255.0)
  }

  lemma FixedBytes()
    ensures Normalise(255.0) == 1.0 && ChannelByte(1.0) == 255
    ensures Normalise(0.0) == 0.0 && ChannelByte(0.0) == 0
  {
  }

  /** Clipping, normalisation and formatting of the raw channels; `None`
      stands for the `ValueError` that `int()` raises on a NaN channel. */
  function FromRaw(raw: Channels): (res: Option<(Rgb, string)>)
    ensures res.None? <==> raw.r.NaN? || raw.g.NaN? || raw.b.NaN?
    ensures res.Some? ==>
      var rgb := res.value.0;
      InUnit(rgb.r) && InUnit(rgb.g) && InUnit(rgb.b)
    ensures res.Some? ==>
      var rgb := res.value.0;
      && WellFormed(res.value.1)
      && ParseHexColor(res.value.1) == Some((ChannelByte(rgb.r), ChannelByte(rgb.g), ChannelByte(rgb.b)))
  {
    var r := Clip(raw.r);
    var g := Clip(raw.g);
    var b := Clip(raw.b);
    if r.NaN? || g.NaN? || b.NaN? then None
    else
      var rgb := Rgb(Normalise(r.x), Normalise(g.x), Normalise(b.x));
      Some((rgb, HexColor(ChannelByte(rgb.r), ChannelByte(rgb.g), ChannelByte(rgb.b))))
  }

  /** `temperature_to_rgb`: `None` stands for the `ValueError` raised while
      the code is formatted, which happens exactly when a channel is NaN. */
  function TemperatureToRgb(temp: Float, k: Curves): (res: Option<(Rgb, string)>)
    ensures temp.NaN? ==> res.None?
    ensures res.None? <==>
      (var raw := RawChannels(temp, k); raw.r.NaN? || raw.g.NaN? || raw.b.NaN?)
    ensures res.Some? ==>
      var rgb := res.value.0;
      InUnit(rgb.r) && InUnit(rgb.g) && InUnit(rgb.b)
    ensures res.Some? ==>
      var rgb := res.value.0;
      && WellFormed(res.value.1)
      && ParseHexColor(res.value.1) == Some((ChannelByte(rgb.r), ChannelByte(rgb.g), ChannelByte(rgb.b)))
  {
    FromRaw(RawChannels(temp, k))
  }

  /** A channel fixed at 255 comes out as 1 and `FF`. */
  lemma FullChannel(raw: Channels)
    requires FromRaw(raw).Some?
    ensures var res := FromRaw(raw).value;
      && (raw.r == Finite(255.0) ==> res.0.r == 1.0 && res.1[1..3] == "FF")
      && (raw.b == Finite(255.0) ==> res.0.b == 1.0 && res.1[5..7] == "FF")
  {
    var rgb := FromRaw(raw).value.0;
    FixedBytes();
    HexColorFields(ChannelByte(rgb.r), ChannelByte(rgb.g), ChannelByte(rgb.b));
  }

  /** A channel fixed at 0 comes out as 0 and `00`. */
  lemma ZeroBlue(raw: Channels)
    requires FromRaw(raw).Some? && raw.b == Finite(0.0)
    ensures var res := FromRaw(raw).value;
      res.0.b == 0.0 && res.1[5..7] == "00"
  {
    var rgb := FromRaw(raw).value.0;
    FixedBytes();
    assert Clip(raw.b) == Finite(0.0);
    assert rgb.b == 0.0;
    assert HexByte(0) == "00";
    HexColorFields(ChannelByte(rgb.r), ChannelByte(rgb.g), 0);
  }

  /** Below `t = 66` red is full, normalised 1 and `FF` in the code, and
      green follows the cool curve. */
  lemma CoolRedIsFull(kelvin: real, k: Curves)
    requires TemperatureToRgb(Finite(kelvin), k).Some?
    requires kelvin / 100.0 < 66.0
    ensures var res := TemperatureToRgb(Finite(kelvin), k).value;
      res.0.r == 1.0 && res.1[1..3] == "FF"
    ensures RawChannels(Finite(kelvin), k).g == k.coolGreen(kelvin / 100.0)
  {
    FullChannel(RawChannels(Finite(kelvin), k));
  }

  /** Below `t = 19` blue is zero: normalised 0 and `00` in the code. */
  lemma ColdBlueIsZero(kelvin: real, k: Curves)
    requires TemperatureToRgb(Finite(kelvin), k).Some?
    requires kelvin / 100.0 < 19.0
    ensures var res := TemperatureToRgb(Finite(kelvin), k).value;
      res.0.b == 0.0 && res.1[5..7] == "00"
  {
    ZeroBlue(RawChannels(Finite(kelvin), k));
  }

  /** From `t = 66` on, 66 itself included, blue is full and the hot
      curves decide red and green. */
  lemma HotBlueIsFull(kelvin: real, k: Curves)
    requires TemperatureToRgb(Finite(kelvin), k).Some?
    requires kelvin / 100.0 >= 66.0
    ensures var t := kelvin / 100.0; var res := TemperatureToRgb(Finite(kelvin), k).value;
      && res.0.b == 1.0 && res.1[5..7] == "FF"
      && RawChannels(Finite(kelvin), k) == Channels(k.hotRed(t), k.hotGreen(t), Finite(255.0))
  {
    FullChannel(RawChannels(Finite(kelvin), k));
  }

  /** From `t = 19` on, 19 itself included, and below 66, the warm curve
      decides blue and the cool curve green. */
  lemma WarmBlueFollowsCurve(kelvin: real, k: Curves)
    requires 19.0 <= kelvin / 100.0 < 66.0
    ensures var t := kelvin / 100.0;
      RawChannels(Finite(kelvin), k) == Channels(Finite(255.0), k.coolGreen(t), k.warmBlue(t))
  {
  }

  /** Each output channel is its curve value clipped to [0, 255] and scaled
      to [0, 1]: a value inside the range is kept, one below it gives 0
      and one above it gives 1. */
  lemma ChannelsAreClipped(temp: Float, k: Curves)
    requires TemperatureToRgb(temp, k).Some?
    ensures var raw := RawChannels(temp, k); var rgb := TemperatureToRgb(temp, k).value.0;
      && ClipScaled(raw.r, rgb.r) && ClipScaled(raw.g, rgb.g) && ClipScaled(raw.b, rgb.b)
  {
  }

  /** `out` is `v` clipped to [0, 255] and divided by 255. */
  predicate ClipScaled(v: Float, out: real)
  {
    && v.Finite?
    && (0.0 <= v.x <= 255.0 ==> out == v.x / 255.0)
    && (v.x < 0.0 ==> out == 0.0)
    && (v.x > 255.0 ==> out == 1.0)
  }
}
