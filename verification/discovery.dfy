/** The discovery loop (lifx/lan/discovery.py) as a pure step function.
    Each callback of the datagram protocol becomes a function from its
    inputs to a `Reaction`: the datagrams it sends, in order, and whether it
    schedules the next broadcast. The transport, the socket options and the
    event loop stay outside the model. */
module Discovery {
  import opened Bytes
  import opened Results
  import Header
  import Light
  import Envelope
  import Octets

  /** A host and port, as asyncio passes them. */
  datatype Address = Address(host: string, port: int)

  /** One `transport.sendto(data, to)`. */
  datatype Send = Send(data: seq<byte>, to: Address)

  /** What a callback does: its sends, in order, and the delay in seconds
      after which it has `broadcast` run again, if it schedules it. */
  datatype Reaction = Reaction(sends: seq<Send>, reschedule: Option<nat>)

  /** The state names the class asks `header.make` for. */
  const GetServiceName: string := "get_service"
  const GetName: string := "get_light"
  const GetPowerName: string := "get_power_light"
  const StateServiceName: string := "state_service"

  /** Seconds between broadcasts. */
  const Period: nat := 5

  /** The 36 octets of a header-only request of type `t`: size 36, protocol
      1024 with the tagged and addressable bits, ack_required, the type in
      octets 32-33, every other octet zero. */
  function RequestBytes(t: Header.MsgType): (r: seq<byte>)
    ensures |r| == Header.HeaderSize
  {
    Zeros(Header.HeaderSize)[0 := 36][3 := 0x34][22 := 2][32 := t.Value() % 256][33 := t.Value() / 256]
  }

  /** The header `header.make` builds, once encode has stamped it. */
  lemma RequestHeaderBytes(v: u16)
    ensures Header.Pack(Header.Empty.(tag := v, tagged := 1, addressable := 1, ackRequired := 1,
                                      protocol := Envelope.Protocol, size := 36))
         == Zeros(Header.HeaderSize)[0 := 36][3 := 0x34][22 := 2][32 := v % 256][33 := v / 256]
  {
    var h := Header.Empty.(tag := v, tagged := 1, addressable := 1, ackRequired := 1,
                           protocol := Envelope.Protocol, size := 36);
    assert Header.FramePart(h) == [36, 0, 0, 0x34, 0, 0, 0, 0] by {
      assert Header.FrameWord(h) == 0x3400;
    }
    assert Header.AddressPart(h) == [0, 0, 0, 0, 0, 0, 0, 0, 0, 0, 0, 0, 0, 0, 2, 0] by {
      assert Header.FlagsByte(h) == 2;
    }
    LE2(v);
    assert Header.ProtocolPart(h) == [0, 0, 0, 0, 0, 0, 0, 0, v % 256, v / 256, 0, 0];
  }

  /** Encoding the header `header.make` builds for tag `v`, with no body,
      gives the request octets for that tag. */
  lemma RequestFrameOfTag(v: u16)
    ensures var h := Header.Empty.(tag := v, tagged := 1, addressable := 1, ackRequired := 1);
      Envelope.Encode(h, None, None, None).Success? &&
      Envelope.Encode(h, None, None, None).value.octets ==
        Zeros(Header.HeaderSize)[0 := 36][3 := 0x34][22 := 2][32 := v % 256][33 := v / 256]
  {
    var h := Header.Empty.(tag := v, tagged := 1, addressable := 1, ackRequired := 1);
    var m := Envelope.Encode(h, None, None, None).value.octets;
    RequestHeaderBytes(v);
    assert Envelope.EncodedHeader(h, Header.HeaderSize) ==
      Header.Empty.(tag := v, tagged := 1, addressable := 1, ackRequired := 1,
                    protocol := Envelope.Protocol, size := 36);
    assert m == m[..Header.HeaderSize];
  }

  /** Encoding the header `header.make` builds for `t`, with no body,
      gives the request frame of `t`. */
  lemma RequestFrame(t: Header.MsgType)
    ensures Envelope.Encode(Header.MakeFor(t), None, None, None).Success?
    ensures Envelope.Encode(Header.MakeFor(t), None, None, None).value.octets == RequestBytes(t)
  {
    MadeFor(t);
    RequestFrameOfTag(t.Value());
  }

  /** The fields `header.make` sets for `t`. */
  lemma MadeFor(t: Header.MsgType)
    ensures Header.MakeFor(t) == Header.Empty.(tag := t.Value(), tagged := 1, addressable := 1, ackRequired := 1)
  {
  }

  /** `bytes(Msg.encode(header.make(state), None))`: KeyError for a name
      that is not a message type, otherwise the request frame of the type
      so named. */
  function Request(state: string): (r: Result<seq<byte>>)
    ensures r.Failure? <==> forall t: Header.MsgType :: t.Name() != state
    ensures r.Failure? ==> r.error == KeyError(state)
    ensures forall t: Header.MsgType :: t.Name() == state ==> r == Success(RequestBytes(t))
  {
    var h :- Header.Make(state);
    var m := Envelope.Encode(h, None, None, None);
    assert forall t: Header.MsgType :: t.Name() == state ==> m.value.octets == RequestBytes(t) by {
      forall t: Header.MsgType | t.Name() == state
        ensures m.value.octets == RequestBytes(t)
      {
        RequestFrame(t);
      }
    }
    Success(m.value.octets)
  }

  lemma RequestOfName(t: Header.MsgType)
    ensures Request(t.Name()) == Success(RequestBytes(t))
  {
  }

  /** The get_service request, by the name the class asks for. */
  lemma GetServiceRequest()
    ensures Request(GetServiceName) == Success(RequestBytes(Header.GetService))
  {
    RequestOfName(Header.GetService);
    assert Header.MsgType.GetService.Name() == GetServiceName;
  }

  lemma GetLightNamed()
    ensures Header.MsgType.GetLight.Name() == GetName
  {
  }

  /** The get_light request, by the name the class asks for. */
  lemma GetRequest()
    ensures Request(GetName) == Success(RequestBytes(Header.GetLight))
  {
    RequestOfName(Header.GetLight);
    GetLightNamed();
  }

  lemma GetPowerLightNamed()
    ensures Header.MsgType.GetPowerLight.Name() == GetPowerName
  {
  }

  /** The get_power_light request, by the name the class asks for. */
  lemma GetPowerRequest()
    ensures Request(GetPowerName) == Success(RequestBytes(Header.GetPowerLight))
  {
    RequestOfName(Header.GetPowerLight);
    GetPowerLightNamed();
  }

  /** `broadcast`: one get_service request to the configured remote, and
      the next broadcast scheduled after the period. */
  function Broadcast(remote: Address): (r: Reaction)
    ensures r.sends == [Send(RequestBytes(Header.GetService), remote)]
    ensures r.reschedule == Some(Period)
  {
    GetServiceRequest();
    match Request(GetServiceName)
    case Success(data) => Reaction([Send(data, remote)], Some(Period))
    case Failure(_) => Reaction([], None)
  }

  /** `connection_made`: after setting the socket options (not modelled),
      the first broadcast. */
  function ConnectionMade(remote: Address): (r: Reaction)
    ensures |r.sends| == 1 && r.sends[0].to == remote && r.reschedule == Some(Period)
    ensures r.sends[0].data == RequestBytes(Header.GetService)
  {
    Broadcast(remote)
  }

  /** The `"{} {} from {}".format(header, body, addr)` argument of the log
      call is built whatever the log level, so every property `__str__`
      reads must succeed; of those only the SetWaveform waveform getter can
      fail, on a value outside the enumeration. */
  function Describe(p: Envelope.Payload): (r: Result<()>)
    requires p.Typed? ==> p.body.WellFormed()
    ensures r.Failure? <==> p.Typed? && p.body.SetWaveform? && p.body.bytes[20] > 4
    ensures r.Failure? ==> r.error.ValueError?
  {
    if p.Typed? && p.body.SetWaveform? then
      var _ :- Light.WaveformOf(p.body);
      Success(())
    else
      Success(())
  }

  /** The `state` class attribute the handler compares; a raw list has
      none. */
  function StateOf(p: Envelope.Payload): (r: Result<string>)
    ensures p.Raw? ==> r == Failure(AttributeError("state"))
    ensures p.Typed? ==> r == Success(p.body.StateName())
  {
    match p
    case Raw(_) => Failure(AttributeError("state"))
    case Typed(b) => Success(b.StateName())
  }

  /** Only the StateService body carries the state_service name. */
  lemma StateNameIsStateService(b: Light.Body)
    ensures b.StateName() == StateServiceName <==> b.StateService?
  {
    if !b.StateService? {
      Header.NameInjective(b.Kind(), Header.StateService);
      assert Header.MsgType.StateService.Name() == StateServiceName;
    }
  }

  /** The payload a well-formed decode yields has well-formed bodies. */
  lemma DecodedWellFormed(m: seq<byte>)
    requires Envelope.Decode(m).Success?
    ensures var p := Envelope.Decode(m).value.1; p.Typed? ==> p.body.WellFormed()
  {
  }

  /** `datagram_received`: decode the datagram, describe it for the log,
      and answer a StateService with a get_light and then a get_power_light
      request to its sender. Nothing is rescheduled. Errors raised on the
      way end the callback. */
  function OnDatagram(data: seq<byte>, addr: Address): (r: Result<Reaction>)
    ensures Envelope.Decode(data).Failure? ==> r == Failure(Envelope.Decode(data).error)
    ensures Envelope.Decode(data).Success? ==>
      var p := Envelope.Decode(data).value.1;
      (p.Raw? ==> r == Failure(AttributeError("state"))) &&
      (p.Typed? && p.body.SetWaveform? && p.body.bytes[20] > 4 ==> r.Failure? && r.error.ValueError?) &&
      (r.Success? <==> p.Typed? && !(p.body.SetWaveform? && p.body.bytes[20] > 4)) &&
      (r.Success? ==> (r.value.reschedule.None? &&
        r.value.sends == if p.body.StateService? then Answer(addr) else []))
  {
    var msg := Octets.FromBytes(data, None, None);
    assert msg.octets == data;
    var (header, body) :- Envelope.Decode(msg.octets);
    DecodedWellFormed(data);
    var _ :- Describe(body);
    var state :- StateOf(body);
    StateNameIsStateService(body.body);
    if state == StateServiceName then
      GetRequest();
      GetPowerRequest();
      var get := Request(GetName);
      var getPower := Request(GetPowerName);
      Success(Reaction([Send(get.value, addr), Send(getPower.value, addr)], None))
    else
      Success(Reaction([], None))
  }
  /** The two requests that answer a StateService, to its sender. */
  function Answer(addr: Address): (r: seq<Send>)
    ensures |r| == 2 && r[0].to == addr && r[1].to == addr
  {
    [Send(RequestBytes(Header.GetLight), addr), Send(RequestBytes(Header.GetPowerLight), addr)]
  }

  /** A request frame decodes to a header of its type, size 36 and protocol
      1024, with the tagged, addressable and ack_required bits set, and to
      the blank body of its type, or an empty raw list when it has none. */
  lemma RequestDecodes(t: Header.MsgType)
    ensures Envelope.Decode(RequestBytes(t)).Success?
    ensures var (h, p) := Envelope.Decode(RequestBytes(t)).value;
      Header.TypeOf(h) == Header.Known(t) && h.size == 36 && h.protocol == Envelope.Protocol &&
      h.tagged == 1 && h.addressable == 1 && h.ackRequired == 1 &&
      p == if Light.Blank(t).Some? then Envelope.Typed(Light.Blank(t).value) else Envelope.Raw([])
  {
    RequestDecodesTo(t);
    RequestHeader(t);
  }

  /** A request frame decodes as a header-only frame of its type. */
  lemma RequestDecodesTo(t: Header.MsgType)
    ensures var eh := Envelope.EncodedHeader(Header.MakeFor(t), Header.HeaderSize);
      Envelope.Decode(RequestBytes(t)) ==
        Success((eh, if Light.Blank(t).Some? then Envelope.Typed(Light.Blank(t).value) else Envelope.Raw([])))
  {
    var h := Header.MakeFor(t);
    RequestFrame(t);
    Envelope.DecodeHeaderOnly(h, None, None);
    RequestHeader(t);
    var eh := Envelope.EncodedHeader(h, Header.HeaderSize);
    assert Envelope.BodyFor(eh) == Light.Blank(t);
  }

  /** The fields of a request's header once encode has stamped it. */
  lemma RequestHeader(t: Header.MsgType)
    ensures var eh := Envelope.EncodedHeader(Header.MakeFor(t), Header.HeaderSize);
      Header.TypeOf(eh) == Header.Known(t) && eh.size == 36 && eh.protocol == Envelope.Protocol &&
      eh.tagged == 1 && eh.addressable == 1 && eh.ackRequired == 1
  {
    MadeFor(t);
    var eh := Envelope.EncodedHeader(Header.MakeFor(t), Header.HeaderSize);
    Header.TypeOfTag(eh, t);
  }

  /** What the handler does with each request frame: a type without a body
      class fails on the missing `state`; the blank state_service frame is
      answered; every other body is ignored. */
  lemma OnRequest(t: Header.MsgType, addr: Address)
    ensures Light.Blank(t).None? ==> OnDatagram(RequestBytes(t), addr) == Failure(AttributeError("state"))
    ensures t == Header.StateService ==> OnDatagram(RequestBytes(t), addr) == Success(Reaction(Answer(addr), None))
    ensures Light.Blank(t).Some? && t != Header.StateService ==>
      OnDatagram(RequestBytes(t), addr) == Success(Reaction([], None))
  {
    RequestDecodes(t);
    var p := Envelope.Decode(RequestBytes(t)).value.1;
    if Light.Blank(t).Some? {
      var b := Light.Blank(t).value;
      assert p == Envelope.Typed(b);
      assert b.SetWaveform? ==> b.bytes[20] == 0;
      assert b.StateService? <==> t == Header.StateService;
    }
  }

  /** The socket hears its own broadcast: a get_service frame is ignored. */
  lemma OwnBroadcastIgnored(remote: Address, addr: Address)
    ensures OnDatagram(Broadcast(remote).sends[0].data, addr) == Success(Reaction([], None))
  {
    OnRequest(Header.GetService, addr);
  }

  /** Every StateService a light sends, whatever its header holds beyond
      the type, is answered with a get_light and then a get_power_light
      request to the sender, and nothing is rescheduled. */
  lemma AnswersStateService(h: Header.Fields, b: Light.Body, addr: Address)
    requires b.StateService? && b.WellFormed()
    requires Header.TypeOf(h) == Header.Known(Header.StateService)
    ensures Envelope.Encode(h, Some(Envelope.Typed(b)), None, None).Success?
    ensures OnDatagram(Envelope.Encode(h, Some(Envelope.Typed(b)), None, None).value.octets, addr)
      == Success(Reaction(Answer(addr), None))
  {
    Envelope.DecodeEncode(h, b, None, None);
  }
}
