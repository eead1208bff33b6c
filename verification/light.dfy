/** The message bodies of the light protocol (lifx/lan/light.py).

    Most bodies are ctypes unions of a packed little-endian record `field`
    and a byte array `bytes` of fixed size: the array is the storage and
    every property reads or writes a fixed slice of it. Three bodies
    (GetService, Get, GetPower) declare no field at all and so have no
    `bytes` member. StateService is a plain structure, not a union: its
    service/port record and its 52-byte array are separate storage. */
module Light {
  import opened Bytes
  import opened Results
  import Header
  import Text
  import Units
  import Rounding

  /** One body instance. `bytes` is the union's byte array; for
      StateService, `service` and `port` are the separate record. */
  datatype Body =
    | GetService
    | StateService(service: byte, port: u32, bytes: seq<byte>)
    | Get
    | State(bytes: seq<byte>)
    | SetColor(bytes: seq<byte>)
    | SetWaveform(bytes: seq<byte>)
    | GetPower
    | SetPower(bytes: seq<byte>)
    | StatePower(bytes: seq<byte>)
  {
    /** Whether the class declares a `bytes` array. */
    predicate HasArray() {
      !(GetService? || Get? || GetPower?)
    }

    /** The length of the `bytes` array. */
    function ArraySize(): nat
      requires HasArray()
    {
      match this
      case SetColor(_) => 13
      case SetWaveform(_) => 21
      case _ => 52
    }

    /** The array has its declared length, as every ctypes instance does. */
    predicate WellFormed() {
      HasArray() ==> |bytes| == ArraySize()
    }

    /** The header message type the body belongs to. */
    function Kind(): Header.MsgType {
      match this
      case GetService => Header.GetService
      case StateService(_, _, _) => Header.StateService
      case Get => Header.GetLight
      case State(_) => Header.StateLight
      case SetColor(_) => Header.SetColorLight
      case SetWaveform(_) => Header.SetWaveformLight
      case GetPower => Header.GetPowerLight
      case SetPower(_) => Header.SetPowerLight
      case StatePower(_) => Header.StatePowerLight
    }

    /** The class attribute `state`: the name of this body's own message
        type, so the one `Header.make` turns into a header of that type. */
    function StateName(): (r: string)
      ensures Header.FromName(r) == Some(Kind())
    {
      Header.FromNameOfName(Kind());
      Kind().Name()
    }
  }

  /** A freshly constructed body of the class decode picks for `t`, every
      byte zero; None for the tags decode keeps as a raw remainder. */
  function Blank(t: Header.MsgType): (r: Option<Body>)
    ensures r.Some? <==> t in {Header.GetService, Header.StateService, Header.GetLight,
      Header.StateLight, Header.SetColorLight, Header.SetWaveformLight,
      Header.GetPowerLight, Header.SetPowerLight, Header.StatePowerLight}
    ensures r.Some? ==> r.value.Kind() == t && r.value.WellFormed()
    ensures r.Some? && r.value.HasArray() ==> r.value.bytes == Zeros(r.value.ArraySize())
    ensures r.Some? && r.value.StateService? ==> r.value.service == 0 && r.value.port == 0
  {
    match t
    case GetService => Some(GetService)
    case StateService => Some(StateService(0, 0, Zeros(52)))
    case GetLight => Some(Get)
    case StateLight => Some(State(Zeros(52)))
    case SetColorLight => Some(SetColor(Zeros(13)))
    case SetWaveformLight => Some(SetWaveform(Zeros(21)))
    case GetPowerLight => Some(GetPower)
    case SetPowerLight => Some(SetPower(Zeros(52)))
    case StatePowerLight => Some(StatePower(Zeros(52)))
    case _ => None
  }

  /** Decode's copy loop `body.bytes[index] = value` over the remainder of
      the frame. A body without an array fails on the first byte with
      AttributeError; a remainder longer than the array fails with
      IndexError once the index passes its end. */
  function Fill(b: Body, rest: seq<byte>): (r: Result<Body>)
    requires b.WellFormed()
    ensures r.Success? <==> (if b.HasArray() then |rest| <= b.ArraySize() else rest == [])
    ensures r.Failure? && b.HasArray() ==> r.error == IndexError(b.ArraySize())
    ensures r.Failure? && !b.HasArray() ==> r.error == AttributeError("bytes")
    ensures r.Success? && !b.HasArray() ==> r.value == b
    ensures r.Success? && b.HasArray() ==> SameInstance(b, r.value)
    ensures r.Success? && b.HasArray() ==>
      r.value.bytes[..|rest|] == rest && r.value.bytes[|rest|..] == b.bytes[|rest|..]
  {
    if !b.HasArray() then
      if rest == [] then Success(b) else Failure(AttributeError("bytes"))
    else if |rest| <= b.ArraySize() then
      var s := Splice(b.bytes, 0, rest);
      assert s[|rest|..] == b.bytes[|rest|..];
      Success(b.(bytes := s))
    else
      Failure(IndexError(b.ArraySize()))
  }

  /** The record fields stored as unsigned integers at a fixed slice of a
      body's array. This is the raw view: the hue, saturation, brightness,
      skew_ratio and waveform properties present these fields converted
      (degrees, percent, the skew getter's answer, an enum member), and the
      SkewRatio field, a signed c_int16 in the record, is read here as its
      unsigned 16-bit pattern. */
  datatype FieldName =
    | Hue | Saturation | Brightness | Kelvin
    | Power | Duration | Transient | Period | SkewRatio | Waveform | Level
  {
    /** Colour components, shown in a scaled unit by the properties. */
    predicate IsScaled() {
      Hue? || Saturation? || Brightness?
    }

    /** The Python property name. */
    function Attribute(): string {
      match this
      case Hue => "hue"
      case Saturation => "saturation"
      case Brightness => "brightness"
      case Kelvin => "kelvin"
      case Power => "power"
      case Duration => "duration"
      case Transient => "transient"
      case Period => "period"
      case SkewRatio => "skew_ratio"
      case Waveform => "waveform"
      case Level => "level"
    }

    /** Degrees for hue, percent for saturation and brightness. */
    function Scale(): (r: int)
      requires IsScaled()
      ensures r == Units.HueScale || r == Units.PercentScale
    {
      if Hue? then Units.HueScale else Units.PercentScale
    }
  }

  /** Where a field lives in the array: byte offset and width. */
  datatype Slot = Slot(offset: nat, width: nat)

  /** Offset of the HSBK record within the record of a coloured body:
      the first member of _State, after one pad byte in _SetColor, after
      a pad byte and `transient` in _SetWaveform. */
  function ColorBase(b: Body): nat
    requires b.State? || b.SetColor? || b.SetWaveform?
  {
    match b
    case State(_) => 0
    case SetColor(_) => 1
    case SetWaveform(_) => 2
  }

  /** The packed records `_State`, `_SetColor`, `_SetWaveform`, `_SetPower`
      and `_StatePower`, as slots; None where the class has no such
      property (reading it raises AttributeError). */
  function Layout(b: Body, f: FieldName): (r: Option<Slot>)
    ensures r.Some? ==> b.HasArray() && r.value.offset + r.value.width <= b.ArraySize()
    ensures r.Some? ==> 1 <= r.value.width <= 4
  {
    match (b, f)
    case (State(_), Hue) => Some(Slot(0, 2))
    case (State(_), Saturation) => Some(Slot(2, 2))
    case (State(_), Brightness) => Some(Slot(4, 2))
    case (State(_), Kelvin) => Some(Slot(6, 2))
    case (State(_), Power) => Some(Slot(10, 2))
    case (SetColor(_), Hue) => Some(Slot(1, 2))
    case (SetColor(_), Saturation) => Some(Slot(3, 2))
    case (SetColor(_), Brightness) => Some(Slot(5, 2))
    case (SetColor(_), Kelvin) => Some(Slot(7, 2))
    case (SetColor(_), Duration) => Some(Slot(9, 4))
    case (SetWaveform(_), Transient) => Some(Slot(1, 1))
    case (SetWaveform(_), Hue) => Some(Slot(2, 2))
    case (SetWaveform(_), Saturation) => Some(Slot(4, 2))
    case (SetWaveform(_), Brightness) => Some(Slot(6, 2))
    case (SetWaveform(_), Kelvin) => Some(Slot(8, 2))
    case (SetWaveform(_), Period) => Some(Slot(10, 4))
    case (SetWaveform(_), SkewRatio) => Some(Slot(18, 2))
    case (SetWaveform(_), Waveform) => Some(Slot(20, 1))
    case (SetPower(_), Level) => Some(Slot(0, 2))
    case (StatePower(_), Level) => Some(Slot(0, 2))
    case _ => None
  }

  /** Two slots share no byte. */
  predicate Apart(a: Slot, c: Slot) {
    a.offset + a.width <= c.offset || c.offset + c.width <= a.offset
  }

  /** The colour components sit where the HSBK record is placed, in
      record order, in every coloured body. */
  lemma ColorLayout(b: Body)
    requires b.State? || b.SetColor? || b.SetWaveform?
    ensures Layout(b, Hue) == Some(Slot(ColorBase(b), 2))
    ensures Layout(b, Saturation) == Some(Slot(ColorBase(b) + 2, 2))
    ensures Layout(b, Brightness) == Some(Slot(ColorBase(b) + 4, 2))
    ensures Layout(b, Kelvin) == Some(Slot(ColorBase(b) + 6, 2))
  {
  }

  /** Distinct fields of one body occupy disjoint bytes, as in a packed
      record. */
  lemma LayoutDisjoint(b: Body, f: FieldName, g: FieldName)
    requires f != g && Layout(b, f).Some? && Layout(b, g).Some?
    ensures Apart(Layout(b, f).value, Layout(b, g).value)
  {
  }

  /** The label, `_State.label`: bytes 12-43 of State, clear of every
      numeric field. */
  const LabelOffset: nat := 12
  const LabelSize: nat := 32

  lemma LabelApart(f: FieldName)
    requires Layout(State(Zeros(52)), f).Some?
    ensures Apart(Layout(State(Zeros(52)), f).value, Slot(LabelOffset, LabelSize))
  {
  }

  /** Reading a record field: the unsigned little-endian value of its
      slice, or AttributeError where the class has no such field. */
  function ReadField(b: Body, f: FieldName): (r: Result<nat>)
    requires b.WellFormed()
    ensures r.Success? <==> Layout(b, f).Some?
    ensures r.Failure? ==> r.error == AttributeError(f.Attribute())
    ensures r.Success? ==> r.value < Pow256(Layout(b, f).value.width)
  {
    match Layout(b, f)
    case None => Failure(AttributeError(f.Attribute()))
    case Some(s) => Success(ReadLE(b.bytes, s.offset, s.width))
  }

  /** `r` is `b` with at most its array rewritten: same class, same
      array length, same separate record. */
  predicate SameInstance(b: Body, r: Body) {
    b.HasArray() && r.HasArray() && r.WellFormed() && r == b.(bytes := r.bytes)
  }

  /** Every property other than `f` reads the same in `r` as in `b`. */
  predicate OthersKept(b: Body, r: Body, f: FieldName)
    requires b.WellFormed() && r.WellFormed()
  {
    forall g :: g != f ==> ReadField(r, g) == ReadField(b, g)
  }

  /** Stores `v` into one slot of the array, truncated to its width. */
  function Store(b: Body, s: Slot, v: int): (r: Body)
    requires b.HasArray() && b.WellFormed() && s.offset + s.width <= b.ArraySize()
    ensures SameInstance(b, r)
    ensures ReadLE(r.bytes, s.offset, s.width) == v % Pow256(s.width)
    ensures forall i :: 0 <= i < |b.bytes| && !(s.offset <= i < s.offset + s.width) ==> r.bytes[i] == b.bytes[i]
  {
    b.(bytes := WriteLE(b.bytes, s.offset, s.width, v))
  }

  /** A store leaves the value of every slot apart from it unchanged. */
  lemma StoreKeepsApart(b: Body, s: Slot, t: Slot, v: int)
    requires b.HasArray() && b.WellFormed()
    requires s.offset + s.width <= b.ArraySize() && t.offset + t.width <= b.ArraySize()
    requires Apart(s, t)
    ensures ReadLE(Store(b, s, v).bytes, t.offset, t.width) == ReadLE(b.bytes, t.offset, t.width)
  {
    var r := Store(b, s, v);
    assert r.bytes[t.offset..t.offset + t.width] == b.bytes[t.offset..t.offset + t.width];
  }

  /** Assigning a property: ctypes keeps the low bits that fit the slot
      and no byte outside the slot changes. Every other property of the
      body therefore reads as before. The body classes declare no
      `__slots__`, so on a class without the property the assignment only
      adds an instance attribute: the array is left as it was. */
  function WriteField(b: Body, f: FieldName, v: int): (r: Body)
    requires b.WellFormed()
    ensures r.WellFormed() && OthersKept(b, r, f)
    ensures Layout(b, f).None? ==> r == b
    ensures Layout(b, f).Some? ==> SameInstance(b, r)
    ensures Layout(b, f).Some? ==> ReadField(r, f) == Success(v % Pow256(Layout(b, f).value.width))
    ensures Layout(b, f).Some? ==> forall i :: 0 <= i < |b.bytes| && !(Layout(b, f).value.offset <= i < Layout(b, f).value.offset + Layout(b, f).value.width) ==> r.bytes[i] == b.bytes[i]
  {
    match Layout(b, f)
    case None => b
    case Some(s) =>
      StoreKeepsOthers(b, f, v);
      Store(b, s, v)
  }

  /** Storing into one property's slot leaves every other property as it
      was. */
  lemma StoreKeepsOthers(b: Body, f: FieldName, v: int)
    requires b.WellFormed() && Layout(b, f).Some?
    ensures OthersKept(b, Store(b, Layout(b, f).value, v), f)
  {
    forall g | g != f
      ensures ReadField(Store(b, Layout(b, f).value, v), g) == ReadField(b, g)
    {
      StoreKeepsOther(b, f, g, v);
    }
  }

  lemma StoreKeepsOther(b: Body, f: FieldName, g: FieldName, v: int)
    requires b.WellFormed() && Layout(b, f).Some? && g != f
    ensures ReadField(Store(b, Layout(b, f).value, v), g) == ReadField(b, g)
  {
    var s := Layout(b, f).value;
    if Layout(b, g).Some? {
      LayoutDisjoint(b, f, g);
      StoreKeepsApart(b, s, Layout(b, g).value, v);
    }
  }

  /** A property's raw value written then read comes back modulo its width. */
  lemma ReadWrite(b: Body, f: FieldName, v: int)
    requires b.WellFormed() && Layout(b, f).Some?
    requires 0 <= v < Pow256(Layout(b, f).value.width)
    ensures ReadField(WriteField(b, f, v), f) == Success(v)
  {
  }

  /** The hue, saturation and brightness getters: the raw fraction of
      65535 shown in degrees or percent. */
  function ScaledValue(b: Body, f: FieldName): (r: Result<int>)
    requires b.WellFormed() && f.IsScaled()
    ensures r.Success? <==> (b.State? || b.SetColor? || b.SetWaveform?)
    ensures r.Success? ==> 0 <= r.value <= f.Scale()
    ensures r.Success? ==>
      Rounding.Abs(r.value as real - ReadField(b, f).value as real / 65535.0 * f.Scale() as real) <= 0.5
  {
    var raw :- ReadField(b, f);
    Success(Units.FromRaw(raw, f.Scale()))
  }

  /** The hue, saturation and brightness setters: `round(value / scale *
      65535)` stored in the 16-bit component. In range, the stored raw value
      is the nearest step to the exact fraction, the even step at an exact
      tie. A body without colour only gains an instance attribute. */
  function WithScaledValue(b: Body, f: FieldName, value: real): (r: Body)
    requires b.WellFormed() && f.IsScaled()
    ensures r.WellFormed() && OthersKept(b, r, f)
    ensures !(b.State? || b.SetColor? || b.SetWaveform?) ==> r == b
    ensures (b.State? || b.SetColor? || b.SetWaveform?) ==> SameInstance(b, r)
    ensures (b.State? || b.SetColor? || b.SetWaveform?) && 0.0 <= value <= f.Scale() as real ==>
      Rounding.Abs(ReadField(r, f).value as real - value / f.Scale() as real * 65535.0) <= 0.5
    ensures ((b.State? || b.SetColor? || b.SetWaveform?) && 0.0 <= value <= f.Scale() as real &&
             Rounding.Abs(ReadField(r, f).value as real - value / f.Scale() as real * 65535.0) == 0.5) ==>
            ReadField(r, f).value % 2 == 0
  {
    if b.State? || b.SetColor? || b.SetWaveform? then
      var raw := Units.ToRaw(value, f.Scale());
      ComponentWrite(b, f, raw);
      WriteField(b, f, raw)
    else
      b
  }

  /** A 16-bit value written to a colour component reads back unchanged. */
  lemma ComponentWrite(b: Body, f: FieldName, raw: u16)
    requires b.WellFormed() && f.IsScaled()
    requires b.State? || b.SetColor? || b.SetWaveform?
    ensures ReadField(WriteField(b, f, raw), f) == Success(raw)
  {
    ColorLayout(b);
    assert Pow256(2) == 0x1_0000;
  }

  /** A whole number of degrees or percent set on a coloured body reads
      back unchanged. */
  lemma ScaledRoundTrip(b: Body, f: FieldName, h: int)
    requires b.WellFormed() && f.IsScaled()
    requires b.State? || b.SetColor? || b.SetWaveform?
    requires 0 <= h <= f.Scale()
    ensures ScaledValue(WithScaledValue(b, f, h as real), f) == Success(h)
  {
    var raw := Units.ToRaw(h as real, f.Scale());
    assert Pow256(2) == 0x1_0000;
    ReadWrite(b, f, raw);
    Units.RoundTrip(h, f.Scale());
  }

  /** The State docstring: after its colour is set, the raw components
      21845, 65535 and 65279 read as hue 120, saturation 100 and
      brightness 100. */
  lemma StateColorDoctest(b: Body)
    requires b.State? && b.WellFormed()
    requires ReadField(b, Hue) == Success(21845)
    requires ReadField(b, Saturation) == Success(65535)
    requires ReadField(b, Brightness) == Success(65279)
    ensures ScaledValue(b, Hue) == Success(120)
    ensures ScaledValue(b, Saturation) == Success(100)
    ensures ScaledValue(b, Brightness) == Success(100)
  {
    Units.ColorDoctest();
  }

  /** The skew_ratio getter as written (bytes 18-19 read as a signed
      c_int16): 32767 exactly when the stored value is -32768, else 32768. */
  function SkewRatioOf(b: Body): (r: Result<int>)
    requires b.WellFormed()
    ensures r.Success? <==> b.SetWaveform?
    ensures r.Success? ==> r.value == 0x7FFF || r.value == 0x8000
    ensures r.Success? ==> (r.value == 0x7FFF <==> ReadI16(b.bytes, 18) == -0x8000)
  {
    if b.SetWaveform? then Success(Units.SkewFromRaw(ReadI16(b.bytes, 18)))
    else Failure(AttributeError("skew_ratio"))
  }

  /** The skew_ratio getter as evidently intended: the stored ratio. */
  function IntendedSkewRatioOf(b: Body): (r: Result<real>)
    requires b.WellFormed()
    ensures r.Success? <==> b.SetWaveform?
    ensures r.Success? ==> 0.0 <= r.value <= 1.0
  {
    if b.SetWaveform? then Success(Units.IntendedSkewFromRaw(ReadI16(b.bytes, 18)))
    else Failure(AttributeError("skew_ratio"))
  }

  /** The skew_ratio setter: the shifted, wrapped c_int16 stored at
      bytes 18-19, nothing else touched. A body other than SetWaveform only
      gains an instance attribute. */
  function WithSkewRatio(b: Body, value: real): (r: Body)
    requires b.WellFormed()
    ensures r.WellFormed() && OthersKept(b, r, SkewRatio)
    ensures !b.SetWaveform? ==> r == b
    ensures b.SetWaveform? ==> SameInstance(b, r) && ReadI16(r.bytes, 18) == Units.SkewToRaw(value)
  {
    if b.SetWaveform? then
      var raw := Units.SkewToRaw(value);
      SkewWrite(b, raw);
      WriteField(b, SkewRatio, raw)
    else
      b
  }

  /** The skew ratio slot read back as a c_int16 gives the value stored. */
  lemma SkewWrite(b: Body, raw: int)
    requires b.SetWaveform? && b.WellFormed()
    requires -0x8000 <= raw < 0x8000
    ensures ReadI16(WriteField(b, SkewRatio, raw).bytes, 18) == raw
  {
    assert Layout(b, SkewRatio) == Some(Slot(18, 2));
    assert WriteField(b, SkewRatio, raw).bytes == WriteLE(b.bytes, 18, 2, raw);
    ReadWriteI16(b.bytes, 18, raw);
  }

  /** Setting a ratio in 0..1 and reading it through the intended getter
      recovers it to within half a raw step. */
  lemma IntendedSkewRoundTrip(b: Body, value: real)
    requires b.SetWaveform? && b.WellFormed()
    requires 0.0 <= value <= 1.0
    ensures Rounding.Abs(IntendedSkewRatioOf(WithSkewRatio(b, value)).value - value) <= 0.5 / 65535.0
  {
    Units.IntendedSkewRoundTrip(value);
  }

  /** The SetWaveform docstring values, on any SetWaveform body: 0, one half
      and 1 store -32768, 0 and 32767 — and the getter as written then
      reads 32768 for the one half. */
  lemma SkewDoctest(b: Body)
    requires b.SetWaveform? && b.WellFormed()
    ensures ReadI16(WithSkewRatio(b, 0.0).bytes, 18) == -32768
    ensures ReadI16(WithSkewRatio(b, 0.5).bytes, 18) == 0
    ensures ReadI16(WithSkewRatio(b, 1.0).bytes, 18) == 32767
    ensures SkewRatioOf(WithSkewRatio(b, 0.5)) == Success(32768)
  {
    Units.SkewDoctest();
  }

  /** `SetWaveform.Waveform`, an IntEnum. */
  datatype Waveform = Saw | Sine | HalfSine | Triangle | Pulse {
    function Value(): nat {
      match this
      case Saw => 0
      case Sine => 1
      case HalfSine => 2
      case Triangle => 3
      case Pulse => 4
    }

    function Name(): string {
      match this
      case Saw => "saw"
      case Sine => "sine"
      case HalfSine => "halfsine"
      case Triangle => "triangle"
      case Pulse => "pulse"
    }
  }

  /** `Waveform(value)`: ValueError for a value no member has. */
  function WaveformFromValue(v: int): (r: Result<Waveform>)
    ensures r.Success? <==> 0 <= v <= 4
    ensures r.Success? ==> r.value.Value() == v
    ensures r.Failure? ==> r.error.ValueError?
  {
    if v == 0 then Success(Saw)
    else if v == 1 then Success(Sine)
    else if v == 2 then Success(HalfSine)
    else if v == 3 then Success(Triangle)
    else if v == 4 then Success(Pulse)
    else Failure(ValueError((if v < 0 then "-" + Text.DecimalString(-v) else Text.DecimalString(v)) + " is not a valid Waveform"))
  }

  /** `getattr(Waveform, name)`: AttributeError for a name no member has. */
  function WaveformFromName(name: string): (r: Result<Waveform>)
    ensures r.Success? ==> r.value.Name() == name
    ensures r.Failure? <==> forall w: Waveform :: w.Name() != name
    ensures r.Failure? ==> r.error == AttributeError(name)
  {
    if name == "saw" then Success(Saw)
    else if name == "sine" then Success(Sine)
    else if name == "halfsine" then Success(HalfSine)
    else if name == "triangle" then Success(Triangle)
    else if name == "pulse" then Success(Pulse)
    else Failure(AttributeError(name))
  }

  /** The waveform getter: the byte at offset 20 as an enum member, so a
      value above 4 makes the getter raise. */
  function WaveformOf(b: Body): (r: Result<Waveform>)
    requires b.WellFormed()
    ensures b.SetWaveform? ==> (r.Success? <==> b.bytes[20] <= 4)
    ensures !b.SetWaveform? ==> r == Failure(AttributeError("waveform"))
    ensures r.Success? ==> r.value.Value() == b.bytes[20]
  {
    var raw :- ReadField(b, Waveform);
    assert b.bytes[20..21] == [b.bytes[20]];
    WaveformFromValue(raw)
  }

  /** The waveform setter: takes a member's name and stores its value. A
      body other than SetWaveform only gains an instance attribute. */
  function WithWaveform(b: Body, name: string): (r: Result<Body>)
    requires b.WellFormed()
    ensures !b.SetWaveform? ==> r == Success(b)
    ensures b.SetWaveform? ==> (r.Success? <==> exists w: Waveform :: w.Name() == name)
    ensures r.Failure? ==> r.error == AttributeError(name)
    ensures b.SetWaveform? && r.Success? ==> SameInstance(b, r.value)
    ensures r.Success? ==> r.value.WellFormed() && OthersKept(b, r.value, Waveform)
  {
    if b.SetWaveform? then
      var w :- WaveformFromName(name);
      Success(WriteField(b, Waveform, w.Value()))
    else
      Success(b)
  }

  /** Setting a waveform by name and reading it back gives that member. */
  lemma WaveformRoundTrip(b: Body, w: Waveform)
    requires b.SetWaveform? && b.WellFormed()
    ensures WaveformOf(WithWaveform(b, w.Name()).value) == Success(w)
  {
    var r := WithWaveform(b, w.Name());
    assert WaveformFromName(w.Name()) == Success(w);
    ReadWrite(b, Waveform, w.Value());
  }

  /** The SetWaveform docstring: "triangle" stores 3. */
  lemma WaveformDoctest(b: Body)
    requires b.SetWaveform? && b.WellFormed()
    ensures ReadField(WithWaveform(b, "triangle").value, Waveform) == Success(3)
    ensures WaveformOf(WithWaveform(b, "triangle").value) == Success(Triangle)
  {
    WaveformRoundTrip(b, Triangle);
  }

  /** The label getter: `chr` of each byte up to the first zero, at most
      the whole array. Each byte becomes one character; the text is not
      decoded as UTF-8. */
  function LabelChars(s: seq<byte>): (r: string)
    ensures |r| <= |s|
    ensures forall i :: 0 <= i < |r| ==> r[i] as int == s[i] && s[i] != 0
    ensures |r| < |s| ==> s[|r|] == 0
  {
    if |s| == 0 || s[0] == 0 then ""
    else [s[0] as char] + LabelChars(s[1..])
  }

  function Label(b: Body): (r: Result<string>)
    requires b.WellFormed()
    ensures r.Success? <==> b.State?
    ensures r.Success? ==> |r.value| <= LabelSize
    ensures r.Success? ==> forall i :: 0 <= i < |r.value| ==>
      r.value[i] as int == b.bytes[LabelOffset + i] && b.bytes[LabelOffset + i] != 0
    ensures r.Success? && |r.value| < LabelSize ==> b.bytes[LabelOffset + |r.value|] == 0
  {
    if b.State? then Success(LabelChars(b.bytes[LabelOffset..LabelOffset + LabelSize]))
    else Failure(AttributeError("label"))
  }

  /** The label setter as written: the UTF-8 bytes are stored from the
      start of the label and the rest of the label is left as it was. More
      than 32 bytes runs off the array with IndexError. A body other than
      State only gains an instance attribute. */
  function WithLabel(b: Body, value: string): (r: Result<Body>)
    requires b.WellFormed()
    ensures r.Success? <==> !b.State? || |Text.Utf8(value)| <= LabelSize
    ensures r.Failure? ==> r.error == IndexError(LabelSize)
    ensures !b.State? ==> r == Success(b)
    ensures b.State? && r.Success? ==> SameInstance(b, r.value)
    ensures b.State? && r.Success? ==>
      var enc := Text.Utf8(value);
      r.value.bytes[LabelOffset..LabelOffset + |enc|] == enc &&
      forall i :: 0 <= i < |b.bytes| && !(LabelOffset <= i < LabelOffset + |enc|) ==> r.value.bytes[i] == b.bytes[i]
  {
    if !b.State? then Success(b)
    else
      var enc := Text.Utf8(value);
      if |enc| > LabelSize then Failure(IndexError(LabelSize))
      else Success(State(Splice(b.bytes, LabelOffset, enc)))
  }

  /** A label with no NUL character, counted in characters. */
  predicate PlainAscii(s: string) {
    Text.IsAscii(s) && forall i :: 0 <= i < |s| ==> s[i] != 0 as char
  }

  /** LabelChars of bytes that spell `s` and then stop. */
  lemma {:induction false} LabelCharsOf(s: string, bytes: seq<byte>)
    requires PlainAscii(s) && |s| <= |bytes|
    requires forall i :: 0 <= i < |s| ==> bytes[i] == s[i] as int
    requires |s| < |bytes| ==> bytes[|s|] == 0
    ensures LabelChars(bytes) == s
  {
    if |s| > 0 {
      LabelCharsOf(s[1..], bytes[1..]);
      assert [bytes[0] as char] == [s[0]];
      assert s == [s[0]] + s[1..];
    }
  }

  /** Where an ASCII label lands: one byte per character from offset 12,
      the rest of the body untouched. */
  lemma AsciiLabelBytes(b: Body, s: string)
    requires b.State? && b.WellFormed()
    requires Text.IsAscii(s) && |s| <= LabelSize
    ensures WithLabel(b, s).Success?
    ensures forall i :: 0 <= i < |s| ==> WithLabel(b, s).value.bytes[LabelOffset + i] == s[i] as int
    ensures forall i :: 0 <= i < |b.bytes| && !(LabelOffset <= i < LabelOffset + |s|) ==>
      WithLabel(b, s).value.bytes[i] == b.bytes[i]
  {
    Text.Utf8Ascii(s);
    var r := WithLabel(b, s).value;
    forall i | 0 <= i < |s|
      ensures r.bytes[LabelOffset + i] == s[i] as int
    {
      assert r.bytes[LabelOffset..LabelOffset + |s|][i] == Text.Utf8(s)[i];
    }
  }

  /** The label round trip of the source: an ASCII label without NUL reads
      back as written, provided the byte after it was already zero. */
  lemma LabelRoundTrip(b: Body, s: string)
    requires b.State? && b.WellFormed()
    requires PlainAscii(s) && |s| <= LabelSize
    requires |s| < LabelSize ==> b.bytes[LabelOffset + |s|] == 0
    ensures WithLabel(b, s).Success? && Label(WithLabel(b, s).value) == Success(s)
  {
    Text.Utf8Ascii(s);
    var r := WithLabel(b, s).value;
    LabelCharsOf(s, r.bytes[LabelOffset..LabelOffset + LabelSize]);
  }

  /** The State docstring: "pippo" on a fresh State reads back as "pippo". */
  lemma LabelDoctest()
    ensures Label(WithLabel(State(Zeros(52)), "pippo").value) == Success("pippo")
  {
    LabelRoundTrip(State(Zeros(52)), "pippo");
  }

  /** A shorter label written over a longer one keeps the old tail:
      "ab" over "pippo" reads back as "abppo". */
  lemma LabelResidue()
    ensures WithLabel(State(Zeros(52)), "pippo").Success?
    ensures var b := WithLabel(State(Zeros(52)), "pippo").value;
      WithLabel(b, "ab").Success? && Label(WithLabel(b, "ab").value) == Success("abppo")
  {
    var b0 := State(Zeros(52));
    AsciiLabelBytes(b0, "pippo");
    var b := WithLabel(b0, "pippo").value;
    AsciiLabelBytes(b, "ab");
    var r := WithLabel(b, "ab").value;
    var bytes := r.bytes[LabelOffset..LabelOffset + LabelSize];
    assert bytes[0] == 97 && bytes[1] == 98;
    assert bytes[2] == b.bytes[14] == 112;
    assert bytes[3] == b.bytes[15] == 112;
    assert bytes[4] == b.bytes[16] == 111;
    assert bytes[5] == b.bytes[17] == b0.bytes[17] == 0;
    LabelCharsOf("abppo", bytes);
  }

  /** The label setter as evidently intended: the unused tail of the label
      is cleared, so the previous label leaves no trace. */
  function IntendedWithLabel(b: Body, value: string): (r: Result<Body>)
    requires b.WellFormed()
    ensures r.Success? <==> !b.State? || |Text.Utf8(value)| <= LabelSize
    ensures r.Failure? ==> r.error == IndexError(LabelSize)
    ensures !b.State? ==> r == Success(b)
    ensures b.State? && r.Success? ==> SameInstance(b, r.value)
    ensures b.State? && r.Success? ==>
      var enc := Text.Utf8(value);
      r.value.bytes[LabelOffset..LabelOffset + LabelSize] == enc + Zeros(LabelSize - |enc|) &&
      forall i :: 0 <= i < |b.bytes| && !(LabelOffset <= i < LabelOffset + LabelSize) ==> r.value.bytes[i] == b.bytes[i]
  {
    if !b.State? then Success(b)
    else
      var enc := Text.Utf8(value);
      if |enc| > LabelSize then Failure(IndexError(LabelSize))
      else Success(State(Splice(b.bytes, LabelOffset, enc + Zeros(LabelSize - |enc|))))
  }

  /** With the tail cleared every ASCII label without NUL reads back as
      written, whatever the body held before. */
  lemma IntendedLabelRoundTrip(b: Body, s: string)
    requires b.State? && b.WellFormed()
    requires PlainAscii(s) && |s| <= LabelSize
    ensures IntendedWithLabel(b, s).Success? && Label(IntendedWithLabel(b, s).value) == Success(s)
  {
    Text.Utf8Ascii(s);
    var r := IntendedWithLabel(b, s).value;
    LabelCharsOf(s, r.bytes[LabelOffset..LabelOffset + LabelSize]);
  }

  /** Non-ASCII labels do not survive: "è" is stored as its two UTF-8
      bytes and read back as the two characters U+00C3 U+00A8. */
  lemma LabelNotDecoded()
    ensures Label(WithLabel(State(Zeros(52)), "è").value) == Success("Ã¨")
  {
    var enc := Text.Utf8("è");
    assert enc == [0xC3, 0xA8];
    var r := WithLabel(State(Zeros(52)), "è").value;
    var bytes := r.bytes[LabelOffset..LabelOffset + LabelSize];
    assert r.bytes[LabelOffset + 2] == Zeros(52)[LabelOffset + 2];
    assert bytes[0] == 0xC3 && bytes[1] == 0xA8 && bytes[2] == 0;
    assert LabelChars(bytes[2..]) == "";
    assert LabelChars(bytes[1..]) == ['¨'] + LabelChars(bytes[2..]);
    assert LabelChars(bytes) == ['Ã'] + LabelChars(bytes[1..]);
    assert LabelChars(bytes) == "Ã¨";
  }

  /** The StateService `service` and `port` getters (the separate record). */
  function Service(b: Body): (r: Result<byte>)
    ensures r.Success? <==> b.StateService?
    ensures r.Success? ==> r.value == b.service
  {
    if b.StateService? then Success(b.service) else Failure(AttributeError("service"))
  }

  function Port(b: Body): (r: Result<u32>)
    ensures r.Success? <==> b.StateService?
    ensures r.Success? ==> r.value == b.port
  {
    if b.StateService? then Success(b.port) else Failure(AttributeError("port"))
  }

  /** The StateService port setter: the c_uint32 keeps the low 32 bits;
      the array and the service are not touched. Another body only gains
      an instance attribute. */
  function WithPort(b: Body, value: int): (r: Body)
    ensures !b.StateService? ==> r == b
    ensures b.StateService? ==> Port(r) == Success(value % 0x1_0000_0000)
    ensures b.StateService? ==> r.StateService? && r.bytes == b.bytes && r.service == b.service
  {
    if b.StateService? then b.(port := value % 0x1_0000_0000)
    else b
  }

  /** The StateService service setter as written: declared without a value
      parameter, so every assignment raises TypeError and the body keeps
      whatever service it had. Another body only gains an instance
      attribute. */
  function WithService(b: Body, value: int): (r: Result<Body>)
    ensures r.Failure? <==> b.StateService?
    ensures r.Failure? ==> r.error.TypeError?
    ensures r.Success? ==> r.value == b
  {
    if b.StateService? then Failure(TypeError("service() takes 1 positional argument but 2 were given"))
    else Success(b)
  }

  /** The service setter as evidently intended: whatever is assigned, the
      service becomes UDP (1), the only one allowed. */
  function IntendedWithService(b: Body, value: int): (r: Body)
    ensures !b.StateService? ==> r == b
    ensures b.StateService? ==> Service(r) == Success(1)
    ensures b.StateService? ==> r.StateService? && r.bytes == b.bytes && r.port == b.port
  {
    if b.StateService? then b.(service := 1)
    else b
  }

  /** `SetPower.ON` and `SetPower.OFF` (also on StatePower). */
  const On: nat := 65535
  const Off: nat := 0

  /** Switching a power body on and off stores the two extremes of the
      level, and the level reads back as set. */
  lemma LevelOnOff(b: Body)
    requires (b.SetPower? || b.StatePower?) && b.WellFormed()
    ensures ReadField(WriteField(b, Level, On), Level) == Success(65535)
    ensures ReadField(WriteField(b, Level, Off), Level) == Success(0)
  {
    assert Pow256(2) == 0x1_0000;
  }

  /** The SetColor docstring: duration 0xAABBCCDD reads back as
      2864434397, and kelvin 3500 as 3500. */
  lemma SetColorDoctest(c: Body)
    requires c.SetColor? && c.WellFormed()
    ensures ReadField(WriteField(c, Duration, 0xAABBCCDD), Duration) == Success(2864434397)
    ensures ReadField(WriteField(c, Kelvin, 3500), Kelvin) == Success(3500)
  {
    assert Pow256(2) == 0x1_0000;
    assert Pow256(4) == 0x1_0000_0000;
  }

  /** The SetWaveform docstring: transient True and False store 1 and 0. */
  lemma TransientDoctest(w: Body)
    requires w.SetWaveform? && w.WellFormed()
    ensures ReadField(WriteField(w, Transient, 1), Transient) == Success(1)
    ensures ReadField(WriteField(w, Transient, 0), Transient) == Success(0)
  {
    assert Pow256(1) == 0x100;
  }
}
