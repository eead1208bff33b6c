/** The LAN envelope (lifx/lan/msg.py): `encode` joins a header and a body
    into one frame, `decode` splits a frame into a header and the body
    class its type names, or the raw remainder when no body class is
    known for that type. */
module Envelope {
  import opened Bytes
  import opened Results
  import Header
  import Light
  import Octets

  /** The protocol number encode stamps on every header. */
  const Protocol: nat := 1024

  /** What decode yields after the header: a body instance, or the raw
      list of octets that follow the header. */
  datatype Payload = Typed(body: Light.Body) | Raw(octets: seq<byte>)

  /** The header decode reads: the first 36 octets written over a zeroed
      header. A shorter frame is not rejected; the missing bytes stay zero. */
  function HeaderBytes(m: seq<byte>): (r: seq<byte>)
    ensures |r| == Header.HeaderSize
    ensures |m| >= Header.HeaderSize ==> r == m[..Header.HeaderSize]
    ensures |m| < Header.HeaderSize ==>
      r[..|m|] == m && forall i :: |m| <= i < Header.HeaderSize ==> r[i] == 0
  {
    if |m| >= Header.HeaderSize then m[..Header.HeaderSize]
    else
      var r := Splice(Zeros(Header.HeaderSize), 0, m);
      assert r[..|m|] == r[0..|m|];
      r
  }

  /** `self[36:]`: the octets after the header, none for a short frame. */
  function Rest(m: seq<byte>): (r: seq<byte>)
    ensures |m| >= Header.HeaderSize ==> m == HeaderBytes(m) + r
    ensures |m| < Header.HeaderSize ==> r == []
  {
    if |m| >= Header.HeaderSize then m[Header.HeaderSize..] else []
  }

  /** The body class decode instantiates for a header, chosen by the type
      getter; None when the type is outside the light bodies or unknown. */
  function BodyFor(h: Header.Fields): (r: Option<Light.Body>)
    ensures r.Some? ==> Header.TypeOf(h) == Header.Known(r.value.Kind()) && r.value.WellFormed()
    ensures r.Some? && r.value.HasArray() ==> r.value.bytes == Zeros(r.value.ArraySize())
    ensures r.Some? && r.value.StateService? ==> r.value.service == 0 && r.value.port == 0
    ensures Header.TypeOf(h).Unrecognized? ==> r.None?
    ensures Header.TypeOf(h).Known? ==> r == Light.Blank(Header.TypeOf(h).member)
  {
    match Header.TypeOf(h)
    case Known(t) => Light.Blank(t)
    case Unrecognized(_) => None
  }

  /** The second half of decode: the remainder copied into a fresh body
      of the chosen class, or kept as a raw list when there is none. The
      copy fails with AttributeError for a body without an array and a
      non-empty remainder, with IndexError for a remainder longer than the
      array; the array keeps zeros past the remainder. */
  function DecodeBody(blank: Option<Light.Body>, rest: seq<byte>): (r: Result<Payload>)
    requires blank.Some? ==> blank.value.WellFormed()
    requires blank.Some? && blank.value.HasArray() ==> blank.value.bytes == Zeros(blank.value.ArraySize())
    ensures blank.None? ==> r == Success(Raw(rest))
    ensures blank.Some? ==>
      var b := blank.value;
      (r.Success? <==> (if b.HasArray() then |rest| <= b.ArraySize() else rest == [])) &&
      (r.Success? ==> r.value.Typed? && r.value.body.Kind() == b.Kind() && r.value.body.WellFormed()) &&
      (r.Success? && !b.HasArray() ==> r.value.body == b) &&
      (r.Success? && b.HasArray() ==> (r.value.body.HasArray() &&
        r.value.body.bytes[..|rest|] == rest &&
        r.value.body.bytes[|rest|..] == Zeros(b.ArraySize() - |rest|)))
    ensures blank.Some? && blank.value.StateService? && r.Success? ==>
      r.value.body.service == blank.value.service && r.value.body.port == blank.value.port
  {
    match blank
    case None => Success(Raw(rest))
    case Some(b) =>
      var body :- Light.Fill(b, rest);
      assert b.HasArray() ==> b.bytes[|rest|..] == Zeros(b.ArraySize() - |rest|);
      assert b.StateService? ==> body.service == b.service && body.port == b.port;
      Success(Typed(body))
  }

  /** `Msg.decode`: the header from the first 36 octets, never rejected,
      then the body its type selects. */
  function Decode(m: seq<byte>): (r: Result<(Header.Fields, Payload)>)
    ensures var h := Header.Unpack(HeaderBytes(m));
      r.Success? ==> r.value.0 == h && Header.Pack(r.value.0) == HeaderBytes(m)
    ensures var h := Header.Unpack(HeaderBytes(m));
      (r.Success? <==> DecodeBody(BodyFor(h), Rest(m)).Success?) &&
      (r.Success? ==> r.value.1 == DecodeBody(BodyFor(h), Rest(m)).value)
  {
    var hb := HeaderBytes(m);
    var h := Header.Unpack(hb);
    Header.PackUnpack(hb);
    var p :- DecodeBody(BodyFor(h), Rest(m));
    Success((h, p))
  }

  /** The octets encode appends after the header. `if body:` is true for
      every body instance and for a non-empty list; an instance without an
      array, or a raw list, then has no `bytes` member. */
  function BodyOctets(body: Option<Payload>): (r: Result<seq<byte>>)
    ensures r.Failure? ==> r.error == AttributeError("bytes")
    ensures body.None? ==> r == Success([])
    ensures body.Some? && body.value.Raw? ==>
      (r.Success? <==> body.value.octets == []) && (r.Success? ==> r.value == [])
    ensures body.Some? && body.value.Typed? ==>
      (r.Success? <==> body.value.body.HasArray()) &&
      (r.Success? ==> r.value == body.value.body.bytes)
  {
    match body
    case None => Success([])
    case Some(Raw(octets)) =>
      if octets == [] then Success([]) else Failure(AttributeError("bytes"))
    case Some(Typed(b)) =>
      if b.HasArray() then Success(b.bytes) else Failure(AttributeError("bytes"))
  }

  /** The size field after encode overwrote its low byte with the frame
      length: the high byte is whatever the header held. */
  function EncodedSize(h: Header.Fields, n: nat): (r: u16)
    ensures r % 256 == n % 256 && r / 256 == h.size / 256
  {
    n % 256 + 256 * (h.size / 256)
  }

  /** The header of an encoded frame: protocol forced to 1024, the low
      size byte replaced by the length. */
  function EncodedHeader(h: Header.Fields, n: nat): Header.Fields {
    h.(protocol := Protocol, size := EncodedSize(h, n))
  }

  /** Overwriting byte 0 of a packed header is assigning the size. */
  lemma LowSizeByte(h: Header.Fields, n: nat)
    ensures Header.Pack(h)[0 := n % 256] == Header.Pack(h.(size := EncodedSize(h, n)))
  {
    var v := EncodedSize(h, n);
    Header.SizeFootprint(h, v);
    Header.PackLayout(h);
    FromLE2(Header.Pack(h)[0..2]);
    assert Header.Pack(h)[1] == h.size / 256;
  }

  /** `Msg.encode`: the header with protocol 1024, then the body array;
      finally octet 0 is replaced by the frame length truncated to a byte. */
  function Encode(h: Header.Fields, body: Option<Payload>, addr: Option<string>, port: Option<int>): (r: Result<Octets.Msg>)
    ensures r.Success? <==> BodyOctets(body).Success?
    ensures r.Failure? ==> r.error == AttributeError("bytes")
    ensures r.Success? ==> r.value.addr == addr && r.value.port == port
    ensures r.Success? ==>
      var tail := BodyOctets(body).value;
      var n := Header.HeaderSize + |tail|;
      |r.value.octets| == n &&
      r.value.octets[..Header.HeaderSize] == Header.Pack(EncodedHeader(h, n)) &&
      r.value.octets[Header.HeaderSize..] == tail
  {
    var tail :- BodyOctets(body);
    var head := Header.Pack(h.(protocol := Protocol));
    var l := head + tail;
    LowSizeByte(h.(protocol := Protocol), |l|);
    var octets := l[0 := |l| % 256];
    assert octets[..Header.HeaderSize] == head[0 := |l| % 256];
    assert octets[Header.HeaderSize..] == tail;
    Success(Octets.Msg(octets, addr, port))
  }

  /** The header of an encoded frame, read back field by field. */
  lemma EncodedFields(h: Header.Fields, n: nat)
    ensures Header.Unpack(Header.Pack(EncodedHeader(h, n))) == EncodedHeader(h, n)
    ensures EncodedHeader(h, n).protocol == Protocol
    ensures EncodedHeader(h, n).size % 256 == n % 256
    ensures EncodedHeader(h, n).tag == h.tag
  {
    Header.UnpackPack(EncodedHeader(h, n));
  }

  /** What the receiving side reconstructs from a body's array: the body
      itself for a union; for StateService the array only, its separate
      service/port record starting from zero. */
  function Delivered(b: Light.Body): (r: Light.Body)
    requires b.HasArray()
    ensures r.HasArray() && r.Kind() == b.Kind() && r.bytes == b.bytes
    ensures !b.StateService? ==> r == b
  {
    if b.StateService? then Light.StateService(0, 0, b.bytes) else b
  }

  /** An encoded body frame splits back into the packed header and the
      body's array. */
  lemma EncodedSplit(h: Header.Fields, b: Light.Body, addr: Option<string>, port: Option<int>)
    requires b.HasArray() && b.WellFormed()
    ensures Encode(h, Some(Typed(b)), addr, port).Success?
    ensures var m := Encode(h, Some(Typed(b)), addr, port).value.octets;
      HeaderBytes(m) == Header.Pack(EncodedHeader(h, Header.HeaderSize + b.ArraySize())) &&
      Rest(m) == b.bytes
  {
  }

  /** Copying a whole array into a fresh body of its kind rebuilds the body
      as delivered. */
  lemma RefillWhole(b: Light.Body)
    requires b.HasArray() && b.WellFormed()
    ensures Light.Blank(b.Kind()).Some?
    ensures DecodeBody(Light.Blank(b.Kind()), b.bytes) == Success(Typed(Delivered(b)))
  {
    var blank := Light.Blank(b.Kind()).value;
    var got := DecodeBody(Some(blank), b.bytes).value.body;
    assert got.bytes == b.bytes by {
      assert got.bytes[..|b.bytes|] == b.bytes;
    }
    SameKindSameArray(got, Delivered(b));
  }

  /** Decoding an encoded body frame gives back the header as encode left
      it and the body as its array carries it. */
  lemma DecodeEncode(h: Header.Fields, b: Light.Body, addr: Option<string>, port: Option<int>)
    requires b.HasArray() && b.WellFormed()
    requires Header.TypeOf(h) == Header.Known(b.Kind())
    ensures Encode(h, Some(Typed(b)), addr, port).Success?
    ensures var n := Header.HeaderSize + b.ArraySize();
      Decode(Encode(h, Some(Typed(b)), addr, port).value.octets)
        == Success((EncodedHeader(h, n), Typed(Delivered(b))))
  {
    var n := Header.HeaderSize + b.ArraySize();
    EncodedSplit(h, b, addr, port);
    var m := Encode(h, Some(Typed(b)), addr, port).value.octets;
    var eh := EncodedHeader(h, n);
    EncodedFields(h, n);
    Header.TypeOfTag(eh, b.Kind());
    assert BodyFor(eh) == Light.Blank(b.Kind());
    RefillWhole(b);
  }

  /** Two array bodies of one kind are equal when their arrays are, apart
      from StateService's separate record. */
  lemma SameKindSameArray(a: Light.Body, c: Light.Body)
    requires a.HasArray() && c.HasArray() && a.Kind() == c.Kind() && a.bytes == c.bytes
    requires a.StateService? ==> a.service == c.service && a.port == c.port
    ensures a == c
  {
  }

  /** A frame encode reproduces octet for octet: its length fits the size
      byte, its protocol is already 1024, and what follows the header is
      exactly one full body array or nothing at all. */
  predicate Canonical(m: seq<byte>, p: Payload) {
    |m| >= Header.HeaderSize &&
    m[0] == |m| % 256 &&
    Header.Unpack(m[..Header.HeaderSize]).protocol == Protocol &&
    match p
    case Typed(b) => b.HasArray() && b.WellFormed() && |m| == Header.HeaderSize + b.ArraySize()
    case Raw(octets) => octets == []
  }

  /** Byte 0 of a packed header is the low byte of the size. */
  lemma SizeLowByte(h: Header.Fields)
    ensures Header.Pack(h)[0] == h.size % 256
  {
    Header.PackLayout(h);
    FromLE2(Header.Pack(h)[0..2]);
  }

  /** For a canonical frame, the octets encode appends after the header are
      exactly the ones decode found there. */
  lemma CanonicalTail(m: seq<byte>)
    requires Decode(m).Success? && Canonical(m, Decode(m).value.1)
    ensures BodyOctets(Some(Decode(m).value.1)) == Success(Rest(m))
  {
    var h := Header.Unpack(HeaderBytes(m));
    var p := Decode(m).value.1;
    var rest := Rest(m);
    var blank := BodyFor(h);
    assert p == DecodeBody(blank, rest).value;
    if blank.None? {
      assert p == Raw(rest);
    } else if p.Typed? {
      assert |rest| == p.body.ArraySize() == |p.body.bytes|;
      assert p.body.bytes == p.body.bytes[..|rest|] == rest;
    }
  }

  /** A canonical frame survives decode and encode unchanged. */
  lemma CanonicalReencodes(m: seq<byte>, addr: Option<string>, port: Option<int>)
    requires Decode(m).Success? && Canonical(m, Decode(m).value.1)
    ensures Encode(Decode(m).value.0, Some(Decode(m).value.1), addr, port) == Success(Octets.Msg(m, addr, port))
  {
    var (h, p) := Decode(m).value;
    CanonicalTail(m);
    CanonicalHeaderFixed(m);
    var r := Encode(h, Some(p), addr, port).value;
    assert r.octets[..Header.HeaderSize] == m[..Header.HeaderSize];
    assert r.octets[Header.HeaderSize..] == m[Header.HeaderSize..];
    assert r.octets == m[..Header.HeaderSize] + m[Header.HeaderSize..];
  }

  /** The header of a canonical frame is one encode leaves as it is. */
  lemma CanonicalHeaderFixed(m: seq<byte>)
    requires Decode(m).Success? && Canonical(m, Decode(m).value.1)
    ensures EncodedHeader(Decode(m).value.0, |m|) == Decode(m).value.0
    ensures Header.Pack(Decode(m).value.0) == m[..Header.HeaderSize]
  {
    var h := Decode(m).value.0;
    assert HeaderBytes(m) == m[..Header.HeaderSize];
    SizeLowByte(h);
    assert h.size % 256 == |m| % 256;
    assert EncodedSize(h, |m|) == h.size;
  }

  /** A frame that decode and encode give back unchanged is canonical. */
  lemma ReencodedIsCanonical(m: seq<byte>, addr: Option<string>, port: Option<int>)
    requires Decode(m).Success?
    requires Encode(Decode(m).value.0, Some(Decode(m).value.1), addr, port) == Success(Octets.Msg(m, addr, port))
    ensures Canonical(m, Decode(m).value.1)
  {
    var (h, p) := Decode(m).value;
    var eh := EncodedHeader(h, |m|);
    EncodedFields(h, |m|);
    SizeLowByte(eh);
    assert m[..Header.HeaderSize] == Header.Pack(eh);
  }

  /** Re-encoding a decoded frame reproduces it exactly when the frame is
      canonical; any other frame comes back different or not at all. */
  lemma EncodeDecode(m: seq<byte>, addr: Option<string>, port: Option<int>)
    requires Decode(m).Success?
    ensures Encode(Decode(m).value.0, Some(Decode(m).value.1), addr, port) == Success(Octets.Msg(m, addr, port))
      <==> Canonical(m, Decode(m).value.1)
  {
    if Canonical(m, Decode(m).value.1) {
      CanonicalReencodes(m, addr, port);
    }
    if Encode(Decode(m).value.0, Some(Decode(m).value.1), addr, port) == Success(Octets.Msg(m, addr, port)) {
      ReencodedIsCanonical(m, addr, port);
    }
  }
  /** A frame whose type has no body class decodes to its raw remainder. */
  lemma UnlistedTypeIsRaw(m: seq<byte>)
    requires BodyFor(Header.Unpack(HeaderBytes(m))).None?
    ensures Decode(m) == Success((Header.Unpack(HeaderBytes(m)), Raw(Rest(m))))
  {
  }

  /** A header sent alone decodes to the encoded header and the body class
      its type names, left blank, or to an empty raw list. */
  lemma DecodeHeaderOnly(h: Header.Fields, addr: Option<string>, port: Option<int>)
    ensures Encode(h, None, addr, port).Success?
    ensures var eh := EncodedHeader(h, Header.HeaderSize);
      Decode(Encode(h, None, addr, port).value.octets) ==
        Success((eh, if BodyFor(eh).Some? then Typed(BodyFor(eh).value) else Raw([])))
  {
    var eh := EncodedHeader(h, Header.HeaderSize);
    var m := Encode(h, None, addr, port).value.octets;
    EncodedFields(h, Header.HeaderSize);
    assert HeaderBytes(m) == Header.Pack(eh);
    assert Rest(m) == [];
    if BodyFor(eh).Some? {
      var b := BodyFor(eh).value;
      var got := DecodeBody(BodyFor(eh), []).value.body;
      if b.HasArray() {
        assert got.bytes == b.bytes by {
          assert got.bytes[0..] == got.bytes;
        }
        SameKindSameArray(got, b);
      }
    }
  }

  /** A header of a body's type followed by exactly that body's array
      decodes to the header and the body. */
  lemma DecodeWhole(head: seq<byte>, b: Light.Body)
    requires |head| == Header.HeaderSize
    requires b.HasArray() && b.WellFormed() && !b.StateService?
    requires Header.TypeOf(Header.Unpack(head)) == Header.Known(b.Kind())
    ensures Decode(head + b.bytes) == Success((Header.Unpack(head), Typed(b)))
  {
    var m := head + b.bytes;
    assert HeaderBytes(m) == head;
    assert Rest(m) == b.bytes;
    RefillWhole(b);
  }

  /** The header of the Msg docstring's sample: size 49, protocol 1024, tag
      102 (set_color_light). */
  const SampleHead: seq<byte> := Zeros(Header.HeaderSize)[0 := 0x31][3 := 0x34][32 := 0x66]

  /** Its 13-octet SetColor body. */
  const SampleBody: seq<byte> := [0x00, 0x55, 0x55, 0xFF, 0xFF, 0xFF, 0xFF, 0xAC, 0x0D, 0x00, 0x04, 0x00, 0x00]

  /** The Msg docstring: the sample decodes to its header and a SetColor
      body. */
  lemma SampleDecodes()
    ensures Decode(SampleHead + SampleBody) == Success((Header.Unpack(SampleHead), Typed(Light.SetColor(SampleBody))))
  {
    SampleLengths();
    SetColorKind(SampleBody);
    SampleType();
    DecodeWhole(SampleHead, Light.SetColor(SampleBody));
  }

  lemma SampleLengths()
    ensures |SampleHead| == Header.HeaderSize && |SampleBody| == 13
  {
  }

  lemma SetColorKind(body: seq<byte>)
    ensures Light.SetColor(body).Kind() == Header.SetColorLight
  {
  }

  lemma SampleType()
    ensures Header.TypeOf(Header.Unpack(SampleHead)) == Header.Known(Header.SetColorLight)
  {
    Header.HeaderDoctestType();
  }

  /** The Msg docstring: the decoded sample encodes back to the same 49
      octets. */
  lemma SampleReencodes()
    ensures Encode(Header.Unpack(SampleHead), Some(Typed(Light.SetColor(SampleBody))), None, None)
      == Success(Octets.Msg(SampleHead + SampleBody, None, None))
  {
    var m := SampleHead + SampleBody;
    SampleDecodes();
    Header.HeaderDoctestFields();
    assert m[..Header.HeaderSize] == SampleHead;
    assert Canonical(m, Typed(Light.SetColor(SampleBody)));
    CanonicalReencodes(m, None, None);
  }
  /** The 52-octet body of the state_light frame captured in the Msg
      docstring: its colour record, power on, and the label
      "LIFX Bulb 121af1". */
  const CapturedState: seq<byte> :=
    [0x71, 0x7E, 0xCC, 0x4C, 0x09, 0x57, 0xAC, 0x0D, 0x00, 0x00, 0xFF, 0xFF] +
    [0x4C, 0x49, 0x46, 0x58, 0x20, 0x42, 0x75, 0x6C, 0x62, 0x20, 0x31, 0x32, 0x31, 0x61, 0x66, 0x31] +
    Zeros(24)

  /** The Msg docstring: whatever else the header holds, a state_light
      frame carrying the captured body decodes to a State body holding it. */
  lemma CapturedStateDecodes(head: seq<byte>)
    requires |head| == Header.HeaderSize && head[32] == 107 && head[33] == 0
    ensures Header.TypeOf(Header.Unpack(head)) == Header.Known(Header.StateLight)
    ensures Decode(head + CapturedState) == Success((Header.Unpack(head), Typed(Light.State(CapturedState))))
  {
    var h := Header.Unpack(head);
    Header.PackUnpack(head);
    Header.PackLayout(h);
    FromLE2(head[32..34]);
    Header.TypeOfTag(h, Header.StateLight);
    DecodeWhole(head, Light.State(CapturedState));
  }

  /** The Msg docstring: the captured State reads hue 32369, saturation
      19660, brightness 22281, kelvin 3500 and power 65535. */
  lemma CapturedStateFields()
    ensures var b := Light.State(CapturedState);
      Light.ReadField(b, Light.Hue) == Success(32369) &&
      Light.ReadField(b, Light.Saturation) == Success(19660) &&
      Light.ReadField(b, Light.Brightness) == Success(22281) &&
      Light.ReadField(b, Light.Kelvin) == Success(3500) &&
      Light.ReadField(b, Light.Power) == Success(65535)
  {
    var c := CapturedState;
    assert c[..12] == [0x71, 0x7E, 0xCC, 0x4C, 0x09, 0x57, 0xAC, 0x0D, 0x00, 0x00, 0xFF, 0xFF];
    FromLE2(c[0..2]);
    FromLE2(c[2..4]);
    FromLE2(c[4..6]);
    FromLE2(c[6..8]);
    FromLE2(c[10..12]);
  }

  /** The Msg docstring: echo_response (59) and state_host_info (13) frames
      have no body class and decode to their raw remainder. */
  lemma UnlistedDoctest(m: seq<byte>)
    requires |m| >= Header.HeaderSize && (m[32] == 59 || m[32] == 13) && m[33] == 0
    ensures Header.TypeOf(Header.Unpack(m[..Header.HeaderSize])) ==
      Header.Known(if m[32] == 59 then Header.EchoResponse else Header.StateHostInfo)
    ensures Decode(m) == Success((Header.Unpack(m[..Header.HeaderSize]), Raw(m[Header.HeaderSize..])))
  {
    var head := m[..Header.HeaderSize];
    var h := Header.Unpack(head);
    Header.PackUnpack(head);
    Header.PackLayout(h);
    FromLE2(head[32..34]);
    if m[32] == 59 {
      Header.TypeOfTag(h, Header.EchoResponse);
    } else {
      Header.TypeOfTag(h, Header.StateHostInfo);
    }
  }
}
