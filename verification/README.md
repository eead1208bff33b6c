# LIFX LAN protocol core, modelled in Dafny

This project models the LAN side of the Python `lifx` library: the 36-byte
frame header, the light message bodies, the message container with its
encoder and decoder, and the discovery loop that broadcasts `get_service`
and answers every `state_service` reply with `get_light` and
`get_power_light` requests.

The library stores every header and body in a ctypes union: a byte array
and a packed little-endian record are two views of the same memory. The
model keeps the byte array as the single state. Each record field is read
from, and written to, its fixed offset. A store keeps only the bits that fit
the field, as ctypes does. A c_int16 wraps round.

Modules:

- `Results`, `Bytes`, `Rounding`, `Text`: shared vocabulary. These cover
  the error values Python raises, little-endian integers, round-half-even
  on exact reals (Python's `round`), hex digits, decimal text and UTF-8.
- `Header` (lifx/lan/header.py): the `_Header` record and its 36 bytes,
  the `Header.State` table of 41 message types, the `type` property and
  `make`.
- `Units` and `Light` (lifx/lan/light.py): the body classes `GetService`,
  `StateService`, `Get`, `State`, `SetColor`, `SetWaveform`, `GetPower`,
  `SetPower` and `StatePower`. Also their properties: scaled hue, saturation
  and brightness, kelvin, power level, label, duration, transient,
  skew_ratio, waveform, service and port.
- `Octets` (lifx/msg.py and the `Nibbles`/`Octect` classes of
  lifx/lan/msg.py): the message as a list of octets bound to an address
  and port, `from_string`, `from_bytes` and `bytes()`.
- `Envelope` (lifx/lan/msg.py): `Msg.encode` and `Msg.decode`.
- `Discovery` (lifx/lan/discovery.py): `connection_made`, `broadcast` and
  `datagram_received`, each as a pure function. It takes the callback's
  input and returns the datagrams sent, in order, and the delay before the
  next broadcast.

Two behaviours of the code are worth stating plainly. A skew ratio of one
half stores 0, because Python's `round` breaks the tie to even. Frames
shorter than 36 octets are not rejected: the header is zero-padded and the
frame is decoded.

None of the body classes declares `__slots__`. Assigning a property that a
body's class does not define therefore raises nothing: Python adds an
instance attribute, and the bytes stay unchanged. Every setter in the model
returns the body unchanged in that case.

Python exceptions become `Failure` values of a `Result`: KeyError,
ValueError, AttributeError, IndexError and TypeError, each with what it
names. The host and port of a datagram are parameters.

## Model

| member | source | states |
|---|---|---|
| Header.FromName | lifx/lan/header.py:53-94 | `Header.State[name]` finds the member called `name` and fails exactly when no member has that name |
| Header.FromValue | lifx/lan/header.py:53-94 | `Header.State(v)` finds the member whose value is `v` and fails exactly when no member has that value |
| Header.ValueInjective | lifx/lan/header.py:53-94 | no two message types share a wire value |
| Header.NameInjective | lifx/lan/header.py:53-94 | no two message types share a name |
| Header.FromValueOfValue | lifx/lan/header.py:53-94 | every message type is found again by its wire value |
| Header.FromNameOfName | lifx/lan/header.py:53-94 | every message type is found again by its name |
| Header.FrameWord | lifx/lan/header.py:10-14 | protocol, addressable, tagged and origin each read back from their bit range of bytes 2-3 |
| Header.FlagsByte | lifx/lan/header.py:19-21 | res_required, ack_required and the six spare bits each read back from their bits of byte 22 |
| Header.PackLayout | lifx/lan/header.py:6-27 | where each `_Header` field sits among the 36 bytes, in little-endian order |
| Header.UnpackPack | lifx/lan/header.py:48-51 | reading the record view of the bytes written from a record gives every field back |
| Header.PackUnpack | lifx/lan/header.py:48-51 | the record view determines every one of the 36 bytes, so the union has one state |
| Header.PackLocality | lifx/lan/header.py:6-27 | each byte range of the header depends only on the fields stored there |
| Header.TypeOf | lifx/lan/header.py:96-108 | the `type` getter gives the member whose value is the tag, or the tag as decimal text exactly when no member has that value |
| Header.TagFootprint | lifx/lan/header.py:110-117 | assigning the tag rewrites bytes 32-33, little-endian, and no other byte |
| Header.SizeFootprint | lifx/lan/header.py:10 | assigning the size rewrites bytes 0-1, little-endian, and no other byte |
| Header.WithType | lifx/lan/header.py:110-117 | after the `type` setter the getter returns the member that was set, and only bytes 32-33 change |
| Header.WithTypeBytes | lifx/lan/header.py:110-117 | the `type` setter seen on the byte view of a header |
| Header.SetSmallType | lifx/lan/header.py:110-117 | a type below 256 set over a zero high tag byte rewrites byte 32 alone |
| Header.MakeFor | lifx/lan/header.py:130-135 | a made header has the requested type, the tagged, addressable and ack_required bits set, and every other byte zero |
| Header.Make | lifx/lan/header.py:123-135 | `make` raises KeyError exactly for a name no type has; otherwise it gives the header made for that type |
| Header.HeaderDoctestFields | lifx/lan/header.py:33-40 | a header whose bytes 0, 3 and 32 are 0x31, 0x34 and 0x66 has size 49 and protocol 1024 |
| Header.HeaderDoctestType | lifx/lan/header.py:41-42 | that header's type reads as set_color_light (102) |
| Header.HeaderDoctestSetType | lifx/lan/header.py:43-45 | assigning echo_request to it stores 58 in byte 32 |
| Units.ToRaw | lifx/lan/light.py:117-135 | in range, the setters store the 16-bit raw value nearest to the scaled fraction of 65535, and the even one of the two at an exact tie (Python's `round`) |
| Units.FromRaw | lifx/lan/light.py:113-131 | the getters give a whole number of degrees or percent within the scale, at most half a unit from the exact value |
| Units.RoundTrip | lifx/lan/light.py:113-135 | a whole number of degrees (0-360) or percent (0-100), stored and read back, is unchanged |
| Units.ColorDoctest | lifx/lan/light.py:190-201 | raw hue 21845 reads as 120 degrees; raw 65535 and 65279 both read as 100 percent |
| Units.SkewToRaw | lifx/lan/light.py:379-381 | the skew setter stores a c_int16 that, shifted up by 32768, is the nearest integer to the ratio times 65535, and even at an exact tie |
| Units.SkewDoctest | lifx/lan/light.py:321-329 | ratios 0, one half and 1 store -32768, 0 and 32767 |
| Units.TieDoctest | lifx/lan/light.py:117-135 | saturation 50 percent and hue 180 degrees, both 32767.5 steps, store 32768; 10 percent stores 6554 |
| Units.SkewFromRaw | lifx/lan/light.py:375-377 | the skew getter as written gives 32767 for the most negative raw value and 32768 for every other value |
| Units.SkewReadBack | lifx/lan/light.py:375-381 | a stored ratio of one half reads back as 32768, not as one half |
| Units.IntendedSkewFromRaw | lifx/lan/light.py:375-377 | the corrected getter gives a ratio between 0 and 1 |
| Units.IntendedSkewRoundTrip | lifx/lan/light.py:375-381 | the corrected getter recovers every ratio in 0..1 to within half a raw step |
| Light.Blank | lifx/lan/msg.py:89-107 | a body class exists for exactly nine message types; a fresh instance has the right kind and an all-zero array |
| Light.Fill | lifx/lan/msg.py:109-111 | copying a remainder into a fresh body fails exactly when the class has no array and the remainder is non-empty, or the remainder is longer than the array; otherwise the array starts with the remainder and nothing else changes |
| Light.Layout | lifx/lan/light.py:163-171 | every field slot lies inside the body's array and is 1 to 4 bytes wide |
| Light.ColorLayout | lifx/lan/light.py:250-256 | the four colour components are consecutive 16-bit words at the HSBK record's offset in State, SetColor and SetWaveform |
| Light.LayoutDisjoint | lifx/lan/light.py:293-303 | distinct fields of one body occupy disjoint bytes, as in a packed record |
| Light.ReadField | lifx/lan/light.py:219-225 | a property read succeeds exactly when the body's record has that field, and returns a value that fits the field's width |
| Light.Store | lifx/lan/light.py:223-225 | storing into a slot keeps the value modulo the slot's width and leaves every byte outside the slot alone |
| Light.StoreKeepsApart | lifx/lan/light.py:223-225 | a store leaves the value of every disjoint slot unchanged |
| Light.WriteField | lifx/lan/light.py:223-225 | where the field exists, an assignment reads back as the value truncated to the field's width; elsewhere the body is unchanged; every other property is unchanged in both cases |
| Light.StoreKeepsOthers | lifx/lan/light.py:223-225 | storing into one property's slot leaves every other property as it reads |
| Light.ReadWrite | lifx/lan/light.py:219-225 | a value that fits the field reads back exactly |
| Light.ScaledValue | lifx/lan/light.py:113-131 | the scaled getters exist exactly on the coloured bodies; each gives a whole number within its scale, at most half a unit from the stored raw value's share of 65535 |
| Light.WithScaledValue | lifx/lan/light.py:117-135 | on a coloured body the scaled setters store the raw value nearest to the exact fraction, the even one at an exact tie; any other body is left unchanged; every other property is unchanged |
| Light.ComponentWrite | lifx/lan/light.py:103-111 | a 16-bit value written to a colour component reads back unchanged |
| Light.ScaledRoundTrip | lifx/lan/light.py:113-135 | a whole number of degrees or percent set on a coloured body reads back unchanged |
| Light.StateColorDoctest | lifx/lan/light.py:190-201 | a State with raw hue 21845 and raw saturation and brightness 65535 and 65279 reads hue 120, saturation 100, brightness 100 |
| Light.SkewRatioOf | lifx/lan/light.py:375-377 | the skew getter as written exists only on SetWaveform and returns 32767 exactly when bytes 18-19 hold the c_int16 -32768, and 32768 for every other stored value |
| Light.IntendedSkewRatioOf | lifx/lan/light.py:375-377 | the corrected getter exists only on SetWaveform and returns a ratio in 0..1 |
| Light.WithSkewRatio | lifx/lan/light.py:379-381 | on SetWaveform the skew setter stores the shifted, wrapped c_int16 at offset 18; any other body is left unchanged; every other property is unchanged |
| Light.SkewWrite | lifx/lan/light.py:301 | a c_int16 written to the skew slot reads back as the same signed value |
| Light.IntendedSkewRoundTrip | lifx/lan/light.py:375-381 | through the corrected getter, a ratio set on a SetWaveform body reads back to within half a raw step |
| Light.SkewDoctest | lifx/lan/light.py:321-329 | on any SetWaveform, ratios 0, one half and 1 store -32768, 0 and 32767; one half reads back as 32768 |
| Light.WaveformFromValue | lifx/lan/light.py:340-345 | `Waveform(v)` succeeds exactly for 0 to 4 and gives the member with that value, and ValueError naming the signed value otherwise |
| Light.WaveformFromName | lifx/lan/light.py:389 | `getattr(Waveform, name)` gives the member with that name for the five member names; any other name raises AttributeError (see Left out for the other attributes of the enum class) |
| Light.WaveformOf | lifx/lan/light.py:383-385 | the waveform getter succeeds on SetWaveform exactly when byte 20 is at most 4, and gives the member with that value |
| Light.WithWaveform | lifx/lan/light.py:387-390 | on SetWaveform the setter succeeds exactly for a member's name and otherwise raises AttributeError; any other body is left unchanged; every other property is unchanged |
| Light.WaveformRoundTrip | lifx/lan/light.py:383-390 | a waveform set by name reads back as that member |
| Light.WaveformDoctest | lifx/lan/light.py:316-320 | "triangle" stores 3 and reads back as the triangle member |
| Light.LabelChars | lifx/lan/light.py:228-236 | the label is the characters of the bytes before the first zero byte, one per byte |
| Light.Label | lifx/lan/light.py:227-236 | the label getter exists only on State; it gives one character per label byte, up to the first zero byte or the 32-byte end |
| Light.WithLabel | lifx/lan/light.py:238-241 | on State the setter as written writes the UTF-8 bytes from offset 12 and keeps the rest of the array; it raises IndexError past 32 bytes; any other body is left unchanged |
| Light.LabelCharsOf | lifx/lan/light.py:228-236 | bytes that spell a NUL-free ASCII text and then stop (a zero byte, or the end) read as that text |
| Light.AsciiLabelBytes | lifx/lan/light.py:238-241 | an ASCII label lands one byte per character from offset 12, and no other byte changes |
| Light.LabelRoundTrip | lifx/lan/light.py:227-241 | a NUL-free ASCII label reads back unchanged when the byte after it is already zero |
| Light.LabelDoctest | lifx/lan/light.py:184-186 | "pippo" set on a fresh State reads back as "pippo" |
| Light.LabelResidue | lifx/lan/light.py:238-241 | "ab" written over "pippo" reads back as "abppo" |
| Light.IntendedWithLabel | lifx/lan/light.py:238-241 | on State the corrected setter writes the UTF-8 bytes and clears the rest of the 32-byte label; any other body is left unchanged |
| Light.IntendedLabelRoundTrip | lifx/lan/light.py:227-241 | with the corrected setter, every NUL-free ASCII label of at most 32 characters reads back unchanged |
| Light.LabelNotDecoded | lifx/lan/light.py:227-241 | a non-ASCII label does not survive: "è" reads back as its two UTF-8 bytes taken as characters |
| Light.Service | lifx/lan/light.py:36-38 | the service getter exists only on StateService and gives its service field |
| Light.Port | lifx/lan/light.py:44-46 | the port getter exists only on StateService and gives its port field |
| Light.WithPort | lifx/lan/light.py:48-50 | on StateService the port setter keeps the low 32 bits of the value and changes nothing else; any other body is left unchanged |
| Light.WithService | lifx/lan/light.py:40-42 | on StateService the setter as written always raises TypeError, since it takes no value; any other body is left unchanged |
| Light.IntendedWithService | lifx/lan/light.py:40-42 | on StateService the corrected setter makes the service 1 (UDP), whatever is assigned, and changes nothing else; any other body is left unchanged |
| Light.LevelOnOff | lifx/lan/light.py:431-434 | on SetPower and StatePower, ON stores 65535 and OFF stores 0 in the level |
| Light.SetColorDoctest | lifx/lan/light.py:266-271 | duration 0xAABBCCDD reads back as 2864434397 and kelvin 3500 as 3500 |
| Light.TransientDoctest | lifx/lan/light.py:330-335 | transient True and False store 1 and 0 |
| Octets.OfNibbles | lifx/lan/msg.py:129-143 | an octet built from two nibbles has each nibble's low four bits in its place |
| Octets.WithHigh | lifx/msg.py:92-94 | assigning the high nibble changes it and keeps the low one |
| Octets.WithLow | lifx/msg.py:92-94 | assigning the low nibble changes it and keeps the high one |
| Octets.NibblesDetermine | lifx/msg.py:97-106 | two octets are equal exactly when both nibbles are |
| Octets.OctetDoctest | lifx/msg.py:98-101 | high 1 and low 0 make the value 16 |
| Octets.EveryOther | lifx/msg.py:42-43 | the characters at the even (or odd) positions, in order |
| Octets.ParseHex | lifx/msg.py:42-43 | parsing nibbles succeeds exactly when every character is a hex digit, and otherwise raises ValueError |
| Octets.Pair | lifx/msg.py:44 | pairing stops at the shorter list, and combines high and low nibbles position by position |
| Octets.AllHexSplit | lifx/msg.py:42-43 | a string is all hex digits exactly when both its halves are |
| Octets.FromString | lifx/msg.py:42-45 | `from_string` succeeds exactly for all-hex text, gives one octet per pair of digits, drops a final odd digit, and keeps the address and port |
| Octets.ToHex | lifx/lan/msg.py:145-146 | each octet shown as its two upper-case hex digits, high nibble first |
| Octets.ToHexAllHex | lifx/lan/msg.py:145-146 | the hex form consists of hex digits only |
| Octets.HexRoundTrip | lifx/msg.py:42-45 | reading back the hex form of any octets gives the same octets, address and port |
| Octets.FromBytes | lifx/msg.py:69 | `from_bytes` keeps each value's low eight bits, in order, with the address and port |
| Octets.ToBytes | lifx/msg.py:80-81 | `bytes()` gives the octet values in order |
| Octets.BytesRoundTrip | lifx/msg.py:69-81 | received bytes turned back into bytes are unchanged |
| Envelope.HeaderBytes | lifx/lan/msg.py:85-87 | decode's header is the first 36 octets, zero-padded when the frame is shorter |
| Envelope.Rest | lifx/lan/msg.py:110-113 | the octets after the header, and none for a short frame |
| Envelope.BodyFor | lifx/lan/msg.py:89-107 | a known type selects the fresh body of its class, or none when it has no class; an unknown tag selects none |
| Envelope.DecodeBody | lifx/lan/msg.py:109-113 | without a class the remainder is kept raw; otherwise it fills the array from the front, leaving zeros after it, or fails as the copy does |
| Envelope.Decode | lifx/lan/msg.py:84-115 | decode never rejects a header and fails only where filling the body fails |
| Envelope.BodyOctets | lifx/lan/msg.py:74-78 | encode appends a body's array; no body and an empty raw list add nothing; anything else raises AttributeError |
| Envelope.Encode | lifx/lan/msg.py:66-82 | the frame is the header with protocol 1024 and its size's low byte set to the frame length, followed by the body's array |
| Envelope.EncodedFields | lifx/lan/msg.py:69-81 | an encoded header reads protocol 1024, the frame length in the size's low byte, and the original tag |
| Envelope.EncodedSplit | lifx/lan/msg.py:66-82 | an encoded body frame splits back into the stamped header and the body's array |
| Envelope.RefillWhole | lifx/lan/msg.py:109-111 | a whole array copied into a fresh body of its kind rebuilds the body |
| Envelope.DecodeEncode | lifx/lan/msg.py:66-115 | decoding an encoded body frame gives the stamped header and the same body |
| Envelope.SameKindSameArray | lifx/lan/msg.py:89-111 | two bodies of one kind with the same array are the same body |
| Envelope.CanonicalReencodes | lifx/lan/msg.py:66-115 | a canonical frame survives decode and encode unchanged |
| Envelope.ReencodedIsCanonical | lifx/lan/msg.py:66-115 | a frame that survives decode and encode unchanged is canonical |
| Envelope.EncodeDecode | lifx/lan/msg.py:66-115 | re-encoding a decoded frame reproduces it exactly when its length fits the size byte, its protocol is 1024 and the body fills its class's array |
| Envelope.UnlistedTypeIsRaw | lifx/lan/msg.py:112-113 | a frame whose type has no body class decodes to its raw remainder |
| Envelope.DecodeHeaderOnly | lifx/lan/msg.py:66-115 | a header sent alone decodes to the stamped header and a blank body of its type, or an empty raw list |
| Envelope.DecodeWhole | lifx/lan/msg.py:84-115 | a header followed by exactly a body's array, of the body's type, decodes to that header and that body |
| Envelope.SampleDecodes | lifx/lan/msg.py:9-20 | the docstring's 49-octet frame decodes to its header and a SetColor body |
| Envelope.SampleReencodes | lifx/lan/msg.py:21-23 | that decoded frame encodes back to the same 49 octets |
| Envelope.CapturedStateDecodes | lifx/lan/msg.py:24-27 | a frame with tag 107 reads as type state_light, and with the captured body decodes to a State holding that body |
| Envelope.CapturedStateFields | lifx/lan/msg.py:28-37 | the captured State reads hue 32369, saturation 19660, brightness 22281, kelvin 3500 and power 65535 |
| Envelope.UnlistedDoctest | lifx/lan/msg.py:40-47 | frames with tag 59 and 13 read as types echo_response and state_host_info, and decode to their raw remainder |
| Discovery.Request | lifx/lan/discovery.py:41-42 | a header-only request by state name: KeyError exactly for an unknown name, otherwise the 36 octets made for that type |
| Discovery.RequestFrame | lifx/lan/discovery.py:50-51 | encoding a made header with no body gives the request octets |
| Discovery.GetServiceRequest | lifx/lan/discovery.py:16 | the get_service name yields the GetService request |
| Discovery.GetRequest | lifx/lan/discovery.py:17 | the get_light name yields the GetLight request |
| Discovery.GetPowerRequest | lifx/lan/discovery.py:18 | the get_power_light name yields the GetPowerLight request |
| Discovery.Broadcast | lifx/lan/discovery.py:49-53 | a broadcast sends one get_service request to the remote and comes back after 5 seconds |
| Discovery.ConnectionMade | lifx/lan/discovery.py:29-34 | on connection the first broadcast goes out and the next is scheduled |
| Discovery.Describe | lifx/lan/discovery.py:39 | formatting the log line fails, with ValueError, exactly for a SetWaveform whose waveform byte names no member |
| Discovery.StateOf | lifx/lan/discovery.py:40 | a body's `state` is its class's state name, and a raw list has none (AttributeError) |
| Discovery.StateNameIsStateService | lifx/lan/discovery.py:40 | only the StateService body carries the state_service name |
| Discovery.OnDatagram | lifx/lan/discovery.py:36-47 | a datagram fails as decoding, logging or the state lookup fails; a StateService is answered with get_light then get_power_light to its sender, anything else with nothing |
| Discovery.RequestDecodes | lifx/lan/discovery.py:41-51 | a request frame decodes to a header of its type, size 36 and protocol 1024, with tagged, addressable and ack_required set |
| Discovery.OnRequest | lifx/lan/discovery.py:36-47 | on each request frame: no body class raises AttributeError, state_service is answered, any other type is ignored |
| Discovery.OwnBroadcastIgnored | lifx/lan/discovery.py:36-53 | the socket hearing its own get_service broadcast sends nothing |
| Discovery.AnswersStateService | lifx/lan/discovery.py:40-47 | every encoded StateService frame is answered with the get_light and get_power_light requests, to its sender |

## Left out

- HSBK `rgb` and the `rgb` properties of the colour bodies: they go through `colorsys` floating point, which this model does not have.
- The `cycles` property of SetWaveform: a c_float.
- `State_Factory` and `Description_Factory` (lifx/lan/light.py:470-544): they are not used by the encoder, the decoder or discovery.
- The `__str__` and `__repr__` texts and the log output. Only the one way the log formatting can raise is modelled, in `Discovery.Describe`.
- Discovery.Describe: states only when formatting fails, not the text it would produce.
- The socket, its options, the event loop and the `__main__` block of discovery.py. The transport becomes the list of sends, and `call_later` becomes the reschedule delay.
- The asynchronous client and the other transports of the library: they are not part of this model.
- Units.ToRaw: exact real arithmetic, so Python's binary floating-point noise near a rounding tie is not modelled.
- Units.FromRaw: exact real arithmetic, as for `Units.ToRaw`.
- Octets.ParseHex: accepts the ASCII hex digits only; `int(c, 16)` also accepts other Unicode digits and surrounding whitespace.
- Light.ReadField: a value assigned to a property the body's class lacks is kept as an instance attribute, which the model does not track. Python reads that value back; the model reads AttributeError, as on a fresh instance. The same holds for `Light.ScaledValue`, `Light.SkewRatioOf`, `Light.WaveformOf`, `Light.Label`, `Light.Service` and `Light.Port`.
- Light.WaveformFromName: `getattr` on the enum class also finds the class's other attributes, such as `__module__`, `__doc__`, `real` or `bit_length`. The model treats every name other than the five members as missing, with AttributeError.
- Light.WithWaveform: for such an attribute name, Python passes the attribute's value to `Waveform(value)`, which raises ValueError, or stores a member for an integer attribute from 0 to 4. The model raises AttributeError instead.
- Light.WithLabel: when the label is too long, the bytes copied before the IndexError stay in the body; the model returns the error without that partial write.
- Envelope.Encode: the caller's header object is also left with protocol 1024; the model returns the new frame and not the changed argument.
- Header.TypeOf: the `logging.error` call on an unknown tag is not modelled.
- The `from_string` docstring example as a literal string: `Octets.HexRoundTrip` covers every hex form, and the example's octets are those of `Envelope.SampleDecodes`.
- Encoding a header together with a body instance of the empty classes (GetService, Get, GetPower) raises AttributeError, because those instances are truthy and have no `bytes`. This is modelled in `Envelope.BodyOctets` as that error.

## Findings

| source | as written | input that shows it | evidently intended | confidence | as-written member | corrected member |
|---|---|---|---|---|---|---|
| lifx/lan/light.py:375-377 | the skew_ratio getter divides the signed raw value by 65535 and rounds before adding 32768, so it can only return 32767 or 32768 | store 0.5: the raw value is 0 and the getter returns 32768 | undo the setter: (raw + 32768) / 65535, a ratio in 0..1 | not executed | Units.SkewReadBack | Units.IntendedSkewRoundTrip |
| lifx/lan/light.py:238-241 | the label setter writes the new bytes but does not clear the old tail | "ab" written over "pippo" reads back as "abppo" | the unused label bytes cleared to zero, so every short label reads back | not executed | Light.LabelResidue | Light.IntendedLabelRoundTrip |
| lifx/lan/light.py:40-42 | the service setter takes no value argument, so every assignment raises TypeError | `body.service = 1` on any StateService | assigning makes the service 1 (UDP), the only one allowed | not executed | Light.WithService | Light.IntendedWithService |
