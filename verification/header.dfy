/** The 36-byte LAN frame header (lifx/lan/header.py): a ctypes union of a
    raw byte array and a little-endian bit-packed record, the closed table of
    message-type tags, the never-failing `type` getter and `make`. */
module Header {
  import opened Bytes
  import opened Results
  import Text

  const HeaderSize: nat := 36

  type bit = x: int | 0 <= x < 2
  type u2 = x: int | 0 <= x < 4
  type u6 = x: int | 0 <= x < 0x40
  type u12 = x: int | 0 <= x < 0x1000

  type Bytes2 = s: seq<byte> | |s| == 2 witness [0, 0]
  type Bytes6 = s: seq<byte> | |s| == 6 witness [0, 0, 0, 0, 0, 0]
  type Bytes8 = s: seq<byte> | |s| == 8 witness [0, 0, 0, 0, 0, 0, 0, 0]

  /** The message-type tags of `Header.State`, in table order. */
  datatype MsgType =
    | GetService | StateService | GetHostInfo | StateHostInfo
    | GetHostFirmware | StateHostFirmware | GetWifiInfo | StateWifiInfo
    | GetWifiFirmware | StateWifiFirmware | GetPower | SetPower | StatePower
    | GetLabel | SetLabel | StateLabel | GetVersion | StateVersion
    | GetInfo | StateInfo | Acknowledgement | GetLocation | StateLocation
    | GetGroup | StateGroup | EchoRequest | EchoResponse
    | GetLight | SetColorLight | SetWaveformLight | StateLight
    | GetPowerLight | SetPowerLight | StatePowerLight
    | GetInfrared | StateInfrared | SetInfrared
    | SetColorZone | GetColorZone | StateZone | StateMultiZone
  {
    /** The tag's numeric value on the wire. */
    function Value(): u16 {
      match this
      case GetService => 2
      case StateService => 3
      case GetHostInfo => 12
      case StateHostInfo => 13
      case GetHostFirmware => 14
      case StateHostFirmware => 15
      case GetWifiInfo => 16
      case StateWifiInfo => 17
      case GetWifiFirmware => 18
      case StateWifiFirmware => 19
      case GetPower => 20
      case SetPower => 21
      case StatePower => 22
      case GetLabel => 23
      case SetLabel => 24
      case StateLabel => 25
      case GetVersion => 32
      case StateVersion => 33
      case GetInfo => 34
      case StateInfo => 35
      case Acknowledgement => 45
      case GetLocation => 48
      case StateLocation => 50
      case GetGroup => 51
      case StateGroup => 53
      case EchoRequest => 58
      case EchoResponse => 59
      case GetLight => 101
      case SetColorLight => 102
      case SetWaveformLight => 103
      case StateLight => 107
      case GetPowerLight => 116
      case SetPowerLight => 117
      case StatePowerLight => 118
      case GetInfrared => 120
      case StateInfrared => 121
      case SetInfrared => 122
      case SetColorZone => 501
      case GetColorZone => 502
      case StateZone => 503
      case StateMultiZone => 506
    }

    /** The enum member's name, the key `make` looks it up by. */
    function Name(): string {
      match this
      case GetService => "get_service"
      case StateService => "state_service"
      case GetHostInfo => "get_host_info"
      case StateHostInfo => "state_host_info"
      case GetHostFirmware => "get_host_firmware"
      case StateHostFirmware => "state_host_firmware"
      case GetWifiInfo => "get_wifi_info"
      case StateWifiInfo => "state_wifi_info"
      case GetWifiFirmware => "get_wifi_firmware"
      case StateWifiFirmware => "state_wifi_firmware"
      case GetPower => "get_power"
      case SetPower => "set_power"
      case StatePower => "state_power"
      case GetLabel => "get_label"
      case SetLabel => "set_label"
      case StateLabel => "state_label"
      case GetVersion => "get_version"
      case StateVersion => "state_version"
      case GetInfo => "get_info"
      case StateInfo => "state_info"
      case Acknowledgement => "acknowledgement"
      case GetLocation => "get_location"
      case StateLocation => "state_location"
      case GetGroup => "get_group"
      case StateGroup => "state_group"
      case EchoRequest => "echo_request"
      case EchoResponse => "echo_response"
      case GetLight => "get_light"
      case SetColorLight => "set_color_light"
      case SetWaveformLight => "set_waveform_light"
      case StateLight => "state_light"
      case GetPowerLight => "get_power_light"
      case SetPowerLight => "set_power_light"
      case StatePowerLight => "state_power_light"
      case GetInfrared => "get_infrared"
      case StateInfrared => "state_infrared"
      case SetInfrared => "set_infrared"
      case SetColorZone => "set_color_zone"
      case GetColorZone => "get_color_zone"
      case StateZone => "state_zone"
      case StateMultiZone => "state_multi_zone"
    }
  }

  /** Every member of the table, in declaration order. */
  const AllTypes: seq<MsgType> := [
    GetService, StateService, GetHostInfo, StateHostInfo,
    GetHostFirmware, StateHostFirmware, GetWifiInfo, StateWifiInfo,
    GetWifiFirmware, StateWifiFirmware, GetPower, SetPower, StatePower,
    GetLabel, SetLabel, StateLabel, GetVersion, StateVersion,
    GetInfo, StateInfo, Acknowledgement, GetLocation, StateLocation,
    GetGroup, StateGroup, EchoRequest, EchoResponse,
    GetLight, SetColorLight, SetWaveformLight, StateLight,
    GetPowerLight, SetPowerLight, StatePowerLight,
    GetInfrared, StateInfrared, SetInfrared,
    SetColorZone, GetColorZone, StateZone, StateMultiZone]

  lemma AllTypesListed(t: MsgType)
    ensures t in AllTypes
  {
  }

  /** The first member of `ts` called `name`. */
  function FindByName(ts: seq<MsgType>, name: string): (r: Option<MsgType>)
    ensures r.Some? ==> r.value in ts && r.value.Name() == name
    ensures r.None? ==> forall t :: t in ts ==> t.Name() != name
  {
    if |ts| == 0 then None
    else if ts[0].Name() == name then Some(ts[0])
    else FindByName(ts[1..], name)
  }

  /** `Header.State[name]`: the member called `name`, if any. */
  function FromName(name: string): (r: Option<MsgType>)
    ensures r.Some? ==> r.value.Name() == name
    ensures r.None? <==> forall t: MsgType :: t.Name() != name
  {
    var r := FindByName(AllTypes, name);
    assert r.None? ==> forall t: MsgType :: t.Name() != name by {
      forall t: MsgType ensures r.None? ==> t.Name() != name {
        AllTypesListed(t);
      }
    }
    r
  }

  /** The first member of `ts` whose value is `v`. */
  function FindByValue(ts: seq<MsgType>, v: int): (r: Option<MsgType>)
    ensures r.Some? ==> r.value in ts && r.value.Value() == v
    ensures r.None? ==> forall t :: t in ts ==> t.Value() != v
  {
    if |ts| == 0 then None
    else if ts[0].Value() == v then Some(ts[0])
    else FindByValue(ts[1..], v)
  }

  /** `Header.State(v)`: the member whose value is `v`, if any. */
  function FromValue(v: int): (r: Option<MsgType>)
    ensures r.Some? ==> r.value.Value() == v
    ensures r.None? <==> forall t: MsgType :: t.Value() != v
  {
    var r := FindByValue(AllTypes, v);
    assert r.None? ==> forall t: MsgType :: t.Value() != v by {
      forall t: MsgType ensures r.None? ==> t.Value() != v {
        AllTypesListed(t);
      }
    }
    r
  }

  /** A proof device: the table inverted case by case, used to show that
      no two members share a value. */
  function ValueKey(v: int): Option<MsgType>
  {
    if v == 2 then Some(GetService)
    else if v == 3 then Some(StateService)
    else if v == 12 then Some(GetHostInfo)
    else if v == 13 then Some(StateHostInfo)
    else if v == 14 then Some(GetHostFirmware)
    else if v == 15 then Some(StateHostFirmware)
    else if v == 16 then Some(GetWifiInfo)
    else if v == 17 then Some(StateWifiInfo)
    else if v == 18 then Some(GetWifiFirmware)
    else if v == 19 then Some(StateWifiFirmware)
    else if v == 20 then Some(GetPower)
    else if v == 21 then Some(SetPower)
    else if v == 22 then Some(StatePower)
    else if v == 23 then Some(GetLabel)
    else if v == 24 then Some(SetLabel)
    else if v == 25 then Some(StateLabel)
    else if v == 32 then Some(GetVersion)
    else if v == 33 then Some(StateVersion)
    else if v == 34 then Some(GetInfo)
    else if v == 35 then Some(StateInfo)
    else if v == 45 then Some(Acknowledgement)
    else if v == 48 then Some(GetLocation)
    else if v == 50 then Some(StateLocation)
    else if v == 51 then Some(GetGroup)
    else if v == 53 then Some(StateGroup)
    else if v == 58 then Some(EchoRequest)
    else if v == 59 then Some(EchoResponse)
    else if v == 101 then Some(GetLight)
    else if v == 102 then Some(SetColorLight)
    else if v == 103 then Some(SetWaveformLight)
    else if v == 107 then Some(StateLight)
    else if v == 116 then Some(GetPowerLight)
    else if v == 117 then Some(SetPowerLight)
    else if v == 118 then Some(StatePowerLight)
    else if v == 120 then Some(GetInfrared)
    else if v == 121 then Some(StateInfrared)
    else if v == 122 then Some(SetInfrared)
    else if v == 501 then Some(SetColorZone)
    else if v == 502 then Some(GetColorZone)
    else if v == 503 then Some(StateZone)
    else if v == 506 then Some(StateMultiZone)
    else None
  }

  lemma ValueKeyOfValue(t: MsgType)
    ensures ValueKey(t.Value()) == Some(t)
  {
  }

  /** No two members share a value. */
  lemma ValueInjective(a: MsgType, b: MsgType)
    ensures a.Value() == b.Value() <==> a == b
  {
    ValueKeyOfValue(a);
    ValueKeyOfValue(b);
  }

  /** A proof device: length, first, seventh and last character tell
      the 41 names apart. */
  function NameKey(name: string): (int, char, char, char)
    requires |name| >= 7
  {
    (|name|, name[0], name[6], name[|name| - 1])
  }

  function FromNameKey(k: (int, char, char, char)): Option<MsgType> {
    if k == (11, 'g', 'r', 'e') then Some(GetService)
    else if k == (13, 's', 's', 'e') then Some(StateService)
    else if k == (13, 'g', 's', 'o') then Some(GetHostInfo)
    else if k == (15, 's', 'h', 'o') then Some(StateHostInfo)
    else if k == (17, 'g', 's', 'e') then Some(GetHostFirmware)
    else if k == (19, 's', 'h', 'e') then Some(StateHostFirmware)
    else if k == (13, 'g', 'f', 'o') then Some(GetWifiInfo)
    else if k == (15, 's', 'w', 'o') then Some(StateWifiInfo)
    else if k == (17, 'g', 'f', 'e') then Some(GetWifiFirmware)
    else if k == (19, 's', 'w', 'e') then Some(StateWifiFirmware)
    else if k == (9, 'g', 'w', 'r') then Some(GetPower)
    else if k == (9, 's', 'w', 'r') then Some(SetPower)
    else if k == (11, 's', 'p', 'r') then Some(StatePower)
    else if k == (9, 'g', 'b', 'l') then Some(GetLabel)
    else if k == (9, 's', 'b', 'l') then Some(SetLabel)
    else if k == (11, 's', 'l', 'l') then Some(StateLabel)
    else if k == (11, 'g', 'r', 'n') then Some(GetVersion)
    else if k == (13, 's', 'v', 'n') then Some(StateVersion)
    else if k == (8, 'g', 'f', 'o') then Some(GetInfo)
    else if k == (10, 's', 'i', 'o') then Some(StateInfo)
    else if k == (15, 'a', 'l', 't') then Some(Acknowledgement)
    else if k == (12, 'g', 'c', 'n') then Some(GetLocation)
    else if k == (14, 's', 'l', 'n') then Some(StateLocation)
    else if k == (9, 'g', 'o', 'p') then Some(GetGroup)
    else if k == (11, 's', 'g', 'p') then Some(StateGroup)
    else if k == (12, 'e', 'e', 't') then Some(EchoRequest)
    else if k == (13, 'e', 'e', 'e') then Some(EchoResponse)
    else if k == (9, 'g', 'g', 't') then Some(GetLight)
    else if k == (15, 's', 'l', 't') then Some(SetColorLight)
    else if k == (18, 's', 'v', 't') then Some(SetWaveformLight)
    else if k == (11, 's', 'l', 't') then Some(StateLight)
    else if k == (15, 'g', 'w', 't') then Some(GetPowerLight)
    else if k == (15, 's', 'w', 't') then Some(SetPowerLight)
    else if k == (17, 's', 'p', 't') then Some(StatePowerLight)
    else if k == (12, 'g', 'f', 'd') then Some(GetInfrared)
    else if k == (14, 's', 'i', 'd') then Some(StateInfrared)
    else if k == (12, 's', 'f', 'd') then Some(SetInfrared)
    else if k == (14, 's', 'l', 'e') then Some(SetColorZone)
    else if k == (14, 'g', 'l', 'e') then Some(GetColorZone)
    else if k == (10, 's', 'z', 'e') then Some(StateZone)
    else if k == (16, 's', 'm', 'e') then Some(StateMultiZone)
    else None
  }

  lemma NameKeyOfNameIn0(t: MsgType)
    requires t in {GetService, StateService, GetHostInfo, StateHostInfo, GetHostFirmware, StateHostFirmware, GetWifiInfo, StateWifiInfo, GetWifiFirmware, StateWifiFirmware, GetPower}
    ensures |t.Name()| >= 7 && FromNameKey(NameKey(t.Name())) == Some(t)
  {
  }

  lemma NameKeyOfNameIn1(t: MsgType)
    requires t in {SetPower, StatePower, GetLabel, SetLabel, StateLabel, GetVersion, StateVersion, GetInfo, StateInfo, Acknowledgement, GetLocation}
    ensures |t.Name()| >= 7 && FromNameKey(NameKey(t.Name())) == Some(t)
  {
  }

  lemma NameKeyOfNameIn2(t: MsgType)
    requires t in {StateLocation, GetGroup, StateGroup, EchoRequest, EchoResponse, GetLight, SetColorLight, SetWaveformLight, StateLight, GetPowerLight, SetPowerLight}
    ensures |t.Name()| >= 7 && FromNameKey(NameKey(t.Name())) == Some(t)
  {
  }

  lemma NameKeyOfNameIn3(t: MsgType)
    requires t in {StatePowerLight, GetInfrared, StateInfrared, SetInfrared, SetColorZone, GetColorZone, StateZone, StateMultiZone}
    ensures |t.Name()| >= 7 && FromNameKey(NameKey(t.Name())) == Some(t)
  {
  }

  lemma NameKeyOfName(t: MsgType)
    ensures |t.Name()| >= 7 && FromNameKey(NameKey(t.Name())) == Some(t)
  {
    if t in {GetService, StateService, GetHostInfo, StateHostInfo, GetHostFirmware, StateHostFirmware, GetWifiInfo, StateWifiInfo, GetWifiFirmware, StateWifiFirmware, GetPower} {
      NameKeyOfNameIn0(t);
    } else if t in {SetPower, StatePower, GetLabel, SetLabel, StateLabel, GetVersion, StateVersion, GetInfo, StateInfo, Acknowledgement, GetLocation} {
      NameKeyOfNameIn1(t);
    } else if t in {StateLocation, GetGroup, StateGroup, EchoRequest, EchoResponse, GetLight, SetColorLight, SetWaveformLight, StateLight, GetPowerLight, SetPowerLight} {
      NameKeyOfNameIn2(t);
    } else {
      NameKeyOfNameIn3(t);
    }
  }

  /** No two members share a name. */
  lemma NameInjective(a: MsgType, b: MsgType)
    ensures a.Name() == b.Name() <==> a == b
  {
    NameKeyOfName(a);
    NameKeyOfName(b);
  }

  /** Every member is found again by its value. */
  lemma FromValueOfValue(t: MsgType)
    ensures FromValue(t.Value()) == Some(t)
  {
    var r := FromValue(t.Value());
    ValueInjective(r.value, t);
  }

  /** Every member is found again by its name. */
  lemma FromNameOfName(t: MsgType)
    ensures FromName(t.Name()) == Some(t)
  {
    var r := FromName(t.Name());
    NameInjective(r.value, t);
  }

  /** `v << k`, where `unit` is 2^k, the weight of the field's lowest bit. */
  function Place(v: nat, unit: nat): nat {
    v * unit
  }

  /** `(w >> k) & (span - 1)`, where `unit` is 2^k and `span` is 2^width:
      the bit field of `w` that starts at weight `unit`. */
  function Extract(w: nat, unit: nat, span: nat): (r: nat)
    requires unit >= 1 && span >= 1
    ensures r < span
  {
    w / unit % span
  }

  /** The `_Header` record: every bit of the 36 bytes has a field, the
      anonymous padding included, so that the record and the byte view
      are interchangeable as in the ctypes union. */
  datatype Fields = Fields(
    size: u16,             // bytes 0-1
    protocol: u12,         // bytes 2-3, bits 0-11
    addressable: bit,      // bytes 2-3, bit 12
    tagged: bit,           // bytes 2-3, bit 13
    origin: u2,            // bytes 2-3, bits 14-15
    source: u32,           // bytes 4-7
    target: Bytes8,        // bytes 8-15
    reserved: Bytes6,      // bytes 16-21
    resRequired: bit,      // byte 22, bit 0
    ackRequired: bit,      // byte 22, bit 1
    flagsPad: u6,          // byte 22, bits 2-7 (unnamed)
    sequence: byte,        // byte 23
    reserved24: Bytes8,    // bytes 24-31 (unnamed c_uint64)
    tag: u16,              // bytes 32-33, the message type
    reserved34: Bytes2)    // bytes 34-35 (unnamed c_uint16)

  /** A freshly constructed `Header()`: every byte zero. */
  const Empty: Fields :=
    Fields(0, 0, 0, 0, 0, 0, [0, 0, 0, 0, 0, 0, 0, 0], [0, 0, 0, 0, 0, 0], 0, 0, 0, 0,
           [0, 0, 0, 0, 0, 0, 0, 0], 0, [0, 0])

  /** The 16-bit word at bytes 2-3: protocol in bits 0-11, addressable in
      bit 12, tagged in bit 13, origin in bits 14-15. */
  function FrameWord(h: Fields): (w: u16)
    ensures Extract(w, 1, 0x1000) == h.protocol
    ensures Extract(w, 0x1000, 2) == h.addressable
    ensures Extract(w, 0x2000, 2) == h.tagged
    ensures Extract(w, 0x4000, 4) == h.origin
  {
    var w := Place(h.protocol, 1) + Place(h.addressable, 0x1000) + Place(h.tagged, 0x2000) + Place(h.origin, 0x4000);
    assert w == h.protocol + 0x1000 * (h.addressable + 2 * h.tagged + 4 * h.origin);
    assert w / 0x1000 == h.addressable + 2 * h.tagged + 4 * h.origin;
    assert w / 0x2000 == h.tagged + 2 * h.origin;
    w
  }

  /** Byte 22: res_required in bit 0, ack_required in bit 1, six unused bits. */
  function FlagsByte(h: Fields): (f: byte)
    ensures Extract(f, 1, 2) == h.resRequired
    ensures Extract(f, 2, 2) == h.ackRequired
    ensures Extract(f, 4, 0x40) == h.flagsPad
  {
    var f := Place(h.resRequired, 1) + Place(h.ackRequired, 2) + Place(h.flagsPad, 4);
    assert f / 2 == h.ackRequired + 2 * h.flagsPad;
    f
  }

  /** Bytes 0-7, the "frame" part: size, the frame word, source. */
  function FramePart(h: Fields): (r: seq<byte>)
    ensures |r| == 8
  {
    ToLE(h.size, 2) + ToLE(FrameWord(h), 2) + ToLE(h.source, 4)
  }

  /** Bytes 8-23, the "frame address" part. */
  function AddressPart(h: Fields): (r: seq<byte>)
    ensures |r| == 16
  {
    h.target + h.reserved + [FlagsByte(h), h.sequence]
  }

  /** Bytes 24-35, the "protocol header" part. */
  function ProtocolPart(h: Fields): (r: seq<byte>)
    ensures |r| == 12
  {
    h.reserved24 + ToLE(h.tag, 2) + h.reserved34
  }

  /** The `bytes` view of the union. */
  function Pack(h: Fields): (r: seq<byte>)
    ensures |r| == HeaderSize
  {
    FramePart(h) + AddressPart(h) + ProtocolPart(h)
  }

  /** The `field` view of the union over 36 bytes. */
  function Unpack(b: seq<byte>): (h: Fields)
    requires |b| == HeaderSize
  {
    var w := ReadLE(b, 2, 2);
    Fields(ReadLE(b, 0, 2), Extract(w, 1, 0x1000), Extract(w, 0x1000, 2), Extract(w, 0x2000, 2), Extract(w, 0x4000, 4),
           ReadLE(b, 4, 4), b[8..16], b[16..22],
           Extract(b[22], 1, 2), Extract(b[22], 2, 2), Extract(b[22], 4, 0x40), b[23],
           b[24..32], ReadLE(b, 32, 2), b[34..36])
  }

  /** The byte layout of the header: where each field sits. */
  lemma PackLayout(h: Fields)
    ensures ReadLE(Pack(h), 0, 2) == h.size
    ensures Extract(ReadLE(Pack(h), 2, 2), 1, 0x1000) == h.protocol
    ensures Extract(ReadLE(Pack(h), 2, 2), 0x1000, 2) == h.addressable
    ensures Extract(ReadLE(Pack(h), 2, 2), 0x2000, 2) == h.tagged
    ensures Extract(ReadLE(Pack(h), 2, 2), 0x4000, 4) == h.origin
    ensures ReadLE(Pack(h), 4, 4) == h.source
    ensures Pack(h)[8..16] == h.target && Pack(h)[16..22] == h.reserved
    ensures Extract(Pack(h)[22], 1, 2) == h.resRequired
    ensures Extract(Pack(h)[22], 2, 2) == h.ackRequired
    ensures Extract(Pack(h)[22], 4, 0x40) == h.flagsPad
    ensures Pack(h)[23] == h.sequence
    ensures Pack(h)[24..32] == h.reserved24
    ensures ReadLE(Pack(h), 32, 2) == h.tag
    ensures Pack(h)[34..36] == h.reserved34
  {
    var r := Pack(h);
    FromLEToLE(h.size, 2);
    FromLEToLE(FrameWord(h), 2);
    FromLEToLE(h.source, 4);
    FromLEToLE(h.tag, 2);
    assert r[0..8] == FramePart(h);
    assert r[8..24] == AddressPart(h);
    assert r[24..36] == ProtocolPart(h);
    assert r[0..2] == ToLE(h.size, 2);
    assert r[2..4] == ToLE(FrameWord(h), 2);
    assert r[4..8] == ToLE(h.source, 4);
    assert r[32..34] == ToLE(h.tag, 2);
  }

  /** Reading the fields back from the bytes gives every field unchanged. */
  lemma UnpackPack(h: Fields)
    ensures Unpack(Pack(h)) == h
  {
    PackLayout(h);
  }

  lemma FramePartOfBytes(b: seq<byte>)
    requires |b| == HeaderSize
    ensures FramePart(Unpack(b)) == b[0..8]
  {
    var h := Unpack(b);
    var w := ReadLE(b, 2, 2);
    assert FrameWord(h) == w;
    ToLEFromLE(b[0..2]);
    ToLEFromLE(b[2..4]);
    ToLEFromLE(b[4..8]);
    assert b[0..8] == b[0..2] + b[2..4] + b[4..8];
  }

  lemma AddressPartOfBytes(b: seq<byte>)
    requires |b| == HeaderSize
    ensures AddressPart(Unpack(b)) == b[8..24]
  {
    var h := Unpack(b);
    assert FlagsByte(h) == b[22];
  }

  lemma ProtocolPartOfBytes(b: seq<byte>)
    requires |b| == HeaderSize
    ensures ProtocolPart(Unpack(b)) == b[24..36]
  {
    ToLEFromLE(b[32..34]);
  }

  /** The record view determines every byte: the two views are one state. */
  lemma PackUnpack(b: seq<byte>)
    requires |b| == HeaderSize
    ensures Pack(Unpack(b)) == b
  {
    FramePartOfBytes(b);
    AddressPartOfBytes(b);
    ProtocolPartOfBytes(b);
    assert b == b[0..8] + b[8..24] + b[24..36];
  }

  /** Each byte range of the header depends on its own fields only, so
      assigning one field never disturbs the bytes of another. */
  lemma PackLocality(h: Fields, h': Fields)
    ensures h.size == h'.size ==> Pack(h)[0..2] == Pack(h')[0..2]
    ensures FrameWord(h) == FrameWord(h') ==> Pack(h)[2..4] == Pack(h')[2..4]
    ensures h.source == h'.source ==> Pack(h)[4..8] == Pack(h')[4..8]
    ensures h.target == h'.target ==> Pack(h)[8..16] == Pack(h')[8..16]
    ensures h.reserved == h'.reserved ==> Pack(h)[16..22] == Pack(h')[16..22]
    ensures FlagsByte(h) == FlagsByte(h') ==> Pack(h)[22] == Pack(h')[22]
    ensures h.sequence == h'.sequence ==> Pack(h)[23] == Pack(h')[23]
    ensures h.reserved24 == h'.reserved24 ==> Pack(h)[24..32] == Pack(h')[24..32]
    ensures h.tag == h'.tag ==> Pack(h)[32..34] == Pack(h')[32..34]
    ensures h.reserved34 == h'.reserved34 ==> Pack(h)[34..36] == Pack(h')[34..36]
  {
    PackLayout(h);
    PackLayout(h');
    if h.size == h'.size {
      ToLEFromLE(Pack(h)[0..2]);
      ToLEFromLE(Pack(h')[0..2]);
    }
    if FrameWord(h) == FrameWord(h') {
      assert Pack(h)[2..4] == ToLE(FrameWord(h), 2) by { assert Pack(h)[0..8] == FramePart(h); }
      assert Pack(h')[2..4] == ToLE(FrameWord(h'), 2) by { assert Pack(h')[0..8] == FramePart(h'); }
    }
    if h.source == h'.source {
      ToLEFromLE(Pack(h)[4..8]);
      ToLEFromLE(Pack(h')[4..8]);
    }
    if h.tag == h'.tag {
      ToLEFromLE(Pack(h)[32..34]);
      ToLEFromLE(Pack(h')[32..34]);
    }
  }

  /** What the `type` property returns: the enum member, or, for a tag
      outside the table, `str()` of the raw value (logged, never raised). */
  datatype TypeView = Known(member: MsgType) | Unrecognized(text: string)

  /** The `type` getter. */
  function TypeOf(h: Fields): (r: TypeView)
    ensures r.Known? ==> r.member.Value() == h.tag
    ensures r.Unrecognized? <==> forall t: MsgType :: t.Value() != h.tag
    ensures r.Unrecognized? ==>
      (forall i :: 0 <= i < |r.text| ==> Text.IsDecimalDigit(r.text[i])) && Text.DecimalValue(r.text) == h.tag
  {
    match FromValue(h.tag)
    case Some(t) => Known(t)
    case None =>
      Text.DecimalRoundTrip(h.tag);
      Unrecognized(Text.DecimalString(h.tag))
  }

  /** Assigning the tag rewrites bytes 32-33, little-endian, and no other byte. */
  lemma TagFootprint(h: Fields, v: u16)
    ensures Pack(h.(tag := v)) == Pack(h)[32 := v % 256][33 := v / 256]
  {
    var r := h.(tag := v);
    assert FramePart(r) == FramePart(h) && AddressPart(r) == AddressPart(h);
    LE2(v);
    LE2(h.tag);
    assert ProtocolPart(r) == ProtocolPart(h)[8 := v % 256][9 := v / 256];
  }

  /** Assigning the size rewrites bytes 0-1, little-endian, and no other byte. */
  lemma SizeFootprint(h: Fields, v: u16)
    ensures Pack(h.(size := v)) == Pack(h)[0 := v % 256][1 := v / 256]
  {
    var r := h.(size := v);
    assert AddressPart(r) == AddressPart(h) && ProtocolPart(r) == ProtocolPart(h);
    LE2(v);
    LE2(h.size);
    assert FramePart(r) == FramePart(h)[0 := v % 256][1 := v / 256];
  }

  /** The `type` setter: stores the member's value in bytes 32-33 and
      leaves the other 34 bytes as they were. */
  function WithType(h: Fields, t: MsgType): (r: Fields)
    ensures TypeOf(r) == Known(t)
    ensures Pack(r) == Pack(h)[32 := t.Value() % 256][33 := t.Value() / 256]
  {
    FromValueOfValue(t);
    TagFootprint(h, t.Value());
    h.(tag := t.Value())
  }

  /** The bytes of a header fresh from `make`, for any tag value. */
  lemma MadeBytes(v: u16)
    ensures Pack(Empty.(tag := v, tagged := 1, addressable := 1, ackRequired := 1))
         == Zeros(HeaderSize)[3 := 0x30][22 := 2][32 := v % 256][33 := v / 256]
  {
    var h := Empty.(tag := v, tagged := 1, addressable := 1, ackRequired := 1);
    assert FramePart(h) == [0, 0, 0, 0x30, 0, 0, 0, 0] by {
      assert FrameWord(h) == 0x3000;
    }
    assert AddressPart(h) == [0, 0, 0, 0, 0, 0, 0, 0, 0, 0, 0, 0, 0, 0, 2, 0] by {
      assert FlagsByte(h) == 2;
    }
    LE2(v);
    assert ProtocolPart(h) == [0, 0, 0, 0, 0, 0, 0, 0, v % 256, v / 256, 0, 0];
  }

  /** `make` for a member already looked up: a zeroed header with the tag
      and the tagged, addressable and ack_required flags set; protocol is
      left at zero. */
  function MakeFor(t: MsgType): (h: Fields)
    ensures TypeOf(h) == Known(t)
    ensures h.tagged == 1 && h.addressable == 1 && h.ackRequired == 1
    ensures Pack(h) == Zeros(HeaderSize)[3 := 0x30][22 := 2][32 := t.Value() % 256][33 := t.Value() / 256]
  {
    FromValueOfValue(t);
    MadeBytes(t.Value());
    Empty.(tag := t.Value(), tagged := 1, addressable := 1, ackRequired := 1)
  }

  /** `make(state)`: `Header.State[state]` raises KeyError on an unknown name. */
  function Make(name: string): (r: Result<Fields>)
    ensures r.Failure? <==> forall t: MsgType :: t.Name() != name
    ensures r.Failure? ==> r.error == KeyError(name)
    ensures forall t: MsgType :: t.Name() == name ==> r == Success(MakeFor(t))
  {
    match FromName(name)
    case None => Failure(KeyError(name))
    case Some(t) =>
      assert forall t': MsgType :: t'.Name() == name ==> t' == t by {
        forall t': MsgType | t'.Name() == name ensures t' == t {
          NameInjective(t', t);
        }
      }
      Success(MakeFor(t))
  }

  /** The class docstring, byte view: bytes 0, 3 and 32 written through
      the byte array read back as size 49, protocol 1024 and type 102. */
  lemma HeaderDoctestFields()
    ensures var h := Unpack(Zeros(HeaderSize)[0 := 0x31][3 := 0x34][32 := 0x66]);
      h.size == 49 && h.protocol == 1024 && h.tag == 102
  {
    var b := Zeros(HeaderSize)[0 := 0x31][3 := 0x34][32 := 0x66];
    FromLE2(b[0..2]);
    FromLE2(b[2..4]);
    FromLE2(b[32..34]);
  }

  /** A header whose tag is a member's value reads back as that member. */
  lemma TypeOfTag(h: Fields, t: MsgType)
    requires h.tag == t.Value()
    ensures TypeOf(h) == Known(t)
  {
    FromValueOfValue(t);
  }

  /** The class docstring, type view: the tag reads as set_color_light. */
  lemma HeaderDoctestType()
    ensures TypeOf(Unpack(Zeros(HeaderSize)[0 := 0x31][3 := 0x34][32 := 0x66])) == Known(SetColorLight)
  {
    var h := Unpack(Zeros(HeaderSize)[0 := 0x31][3 := 0x34][32 := 0x66]);
    HeaderDoctestFields();
    TypeOfTag(h, SetColorLight);
  }

  /** The `type` setter seen on the byte view of the union. */
  lemma WithTypeBytes(b: seq<byte>, t: MsgType)
    requires |b| == HeaderSize
    ensures Pack(WithType(Unpack(b), t)) == b[32 := t.Value() % 256][33 := t.Value() / 256]
  {
    PackUnpack(b);
  }

  /** The class docstring, setter: assigning echo_request rewrites byte 32
      to 58 and leaves every other byte as written. */
  lemma HeaderDoctestSetType()
    ensures var b := Zeros(HeaderSize)[0 := 0x31][3 := 0x34][32 := 0x66];
      Pack(WithType(Unpack(b), EchoRequest)) == b[32 := 58]
  {
    var b := Zeros(HeaderSize)[0 := 0x31][3 := 0x34][32 := 0x66];
    assert EchoRequest.Value() == 58;
    SetSmallType(b, EchoRequest);
  }

  /** A type below 256 assigned over a zero high tag byte rewrites byte 32
      alone. */
  lemma SetSmallType(b: seq<byte>, t: MsgType)
    requires |b| == HeaderSize && b[33] == 0 && t.Value() < 256
    ensures Pack(WithType(Unpack(b), t)) == b[32 := t.Value()]
  {
    var v := t.Value();
    WithTypeBytes(b, t);
    assert v % 256 == v && v / 256 == 0;
    var c := b[32 := v];
    assert c[33] == 0;
    assert c[33 := 0] == c;
  }
}
