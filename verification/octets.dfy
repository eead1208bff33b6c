/** The message container shared by the library's transports (lifx/msg.py,
    repeated in lifx/lan/msg.py): a list of octets, each a ctypes union of a
    byte and its two nibbles, optionally bound to an IP address and port. */
module Octets {
  import opened Bytes
  import opened Results
  import Text

  /** The high nibble: the second 4-bit field of `Nibbles`, since ctypes
      allocates bit fields from the least significant bit. */
  function High(o: byte): (r: nat)
    ensures r < 16
  {
    o / 16
  }

  /** The low nibble: the first 4-bit field of `Nibbles`. */
  function Low(o: byte): (r: nat)
    ensures r < 16
  {
    o % 16
  }

  /** `Octect(Nibbles(high=h, low=l)).value`: each 4-bit field keeps the
      low four bits of what it is given. */
  function OfNibbles(high: int, low: int): (r: byte)
    ensures High(r) == high % 16 && Low(r) == low % 16
  {
    high % 16 * 16 + low % 16
  }

  /** Assigning `octet.nibble.high` rewrites the high nibble only. */
  function WithHigh(o: byte, v: int): (r: byte)
    ensures High(r) == v % 16 && Low(r) == Low(o)
  {
    OfNibbles(v, Low(o))
  }

  /** Assigning `octet.nibble.low` rewrites the low nibble only. */
  function WithLow(o: byte, v: int): (r: byte)
    ensures High(r) == High(o) && Low(r) == v % 16
  {
    OfNibbles(High(o), v)
  }

  /** An octet is determined by its two nibbles. */
  lemma NibblesDetermine(a: byte, b: byte)
    ensures a == b <==> High(a) == High(b) && Low(a) == Low(b)
  {
    assert a == 16 * High(a) + Low(a) && b == 16 * High(b) + Low(b);
  }

  /** The Octect docstring: high 1, low 0 is the value 16. */
  lemma OctetDoctest()
    ensures OfNibbles(1, 0) == 16
  {
  }

  /** A message: its octets, and the address and port it is bound to. */
  datatype Msg = Msg(octets: seq<byte>, addr: Option<string>, port: Option<int>)

  /** The characters at positions `start`, `start + 2`, ... */
  function EveryOther(s: string, start: nat): (r: string)
    requires start <= 1
    ensures |r| == (|s| + 1 - start) / 2
    ensures forall i :: 0 <= i < |r| ==> r[i] == s[2 * i + start]
    decreases |s|
  {
    if |s| <= start then ""
    else [s[start]] + (if |s| >= 2 then EveryOther(s[2..], start) else "")
  }

  /** `[int(c, 16) for c in s]`: ValueError at the first character that is
      not a hexadecimal digit. */
  function ParseHex(s: string): (r: Result<seq<nat>>)
    ensures r.Success? <==> forall i :: 0 <= i < |s| ==> Text.HexDigit(s[i]).Some?
    ensures r.Success? ==> (|r.value| == |s| &&
      forall i :: 0 <= i < |s| ==> r.value[i] == Text.HexDigit(s[i]).value)
    ensures r.Failure? ==> r.error.ValueError?
  {
    if |s| == 0 then Success([])
    else match Text.HexDigit(s[0])
      case None => Failure(ValueError("invalid literal for int() with base 16: '" + [s[0]] + "'"))
      case Some(d) =>
        match ParseHex(s[1..])
        case Failure(e) => Failure(e)
        case Success(ds) => Success([d] + ds)
  }

  /** `map(f, highs, lows)` stops at the shorter list. */
  function Pair(highs: seq<nat>, lows: seq<nat>): (r: seq<byte>)
    ensures |r| == if |highs| < |lows| then |highs| else |lows|
    ensures forall i :: 0 <= i < |r| ==> r[i] == OfNibbles(highs[i], lows[i])
  {
    if |highs| == 0 || |lows| == 0 then []
    else [OfNibbles(highs[0], lows[0])] + Pair(highs[1..], lows[1..])
  }

  /** Every character of `s` is a hex digit when those of both halves are. */
  predicate AllHex(s: string) {
    forall i :: 0 <= i < |s| ==> Text.HexDigit(s[i]).Some?
  }

  lemma AllHexSplit(s: string)
    ensures AllHex(s) <==> AllHex(EveryOther(s, 0)) && AllHex(EveryOther(s, 1))
  {
    var evens, odds := EveryOther(s, 0), EveryOther(s, 1);
    if AllHex(evens) && AllHex(odds) {
      forall i | 0 <= i < |s|
        ensures Text.HexDigit(s[i]).Some?
      {
        var k := i / 2;
        if i == 2 * k {
          assert evens[k] == s[i];
        } else {
          assert i == 2 * k + 1;
          assert odds[k] == s[i];
        }
      }
    }
  }

  lemma OfDigits(h: nat, l: nat)
    requires h < 16 && l < 16
    ensures OfNibbles(h, l) == 16 * h + l
  {
  }

  /** What parsing one half of the string yields, position by position. */
  lemma ParsedHalf(s: string, start: nat, ds: seq<nat>)
    requires start <= 1
    requires ParseHex(EveryOther(s, start)) == Success(ds)
    ensures |ds| == (|s| + 1 - start) / 2
    ensures forall i :: 0 <= i < |ds| ==>
      Text.HexDigit(s[2 * i + start]).Some? && ds[i] == Text.HexDigit(s[2 * i + start]).value
  {
    var half := EveryOther(s, start);
    forall i | 0 <= i < |ds|
      ensures Text.HexDigit(s[2 * i + start]).Some? && ds[i] == Text.HexDigit(s[2 * i + start]).value
    {
      assert half[i] == s[2 * i + start];
    }
  }

  /** The octets `from_string` builds from the parsed halves. */
  lemma PairedDigits(s: string, highs: seq<nat>, lows: seq<nat>)
    requires |highs| == (|s| + 1) / 2 && |lows| == |s| / 2
    requires forall i :: 0 <= i < |s| ==> Text.HexDigit(s[i]).Some?
    requires forall i :: 0 <= i < |highs| ==> highs[i] == Text.HexDigit(s[2 * i]).value
    requires forall i :: 0 <= i < |lows| ==> lows[i] == Text.HexDigit(s[2 * i + 1]).value
    ensures |Pair(highs, lows)| == |s| / 2
    ensures forall i :: 0 <= i < |s| / 2 ==>
      Pair(highs, lows)[i] == 16 * Text.HexDigit(s[2 * i]).value + Text.HexDigit(s[2 * i + 1]).value
  {
    var p := Pair(highs, lows);
    forall i | 0 <= i < |s| / 2
      ensures p[i] == 16 * Text.HexDigit(s[2 * i]).value + Text.HexDigit(s[2 * i + 1]).value
    {
      OfDigits(highs[i], lows[i]);
    }
  }

  /** `Msg.from_string`: the even-indexed characters are all parsed as high
      nibbles, then the odd-indexed ones as low nibbles, and the two lists
      are paired; a final unpaired digit is checked but dropped. */
  function FromString(s: string, addr: Option<string>, port: Option<int>): (r: Result<Msg>)
    ensures r.Success? <==> AllHex(s)
    ensures r.Failure? ==> r.error.ValueError?
    ensures r.Success? ==> r.value.addr == addr && r.value.port == port
    ensures r.Success? ==> (|r.value.octets| == |s| / 2 &&
      forall i :: 0 <= i < |s| / 2 ==>
        r.value.octets[i] == 16 * Text.HexDigit(s[2 * i]).value + Text.HexDigit(s[2 * i + 1]).value)
  {
    AllHexSplit(s);
    var highs :- ParseHex(EveryOther(s, 0));
    var lows :- ParseHex(EveryOther(s, 1));
    ParsedHalf(s, 0, highs);
    ParsedHalf(s, 1, lows);
    PairedDigits(s, highs, lows);
    Success(Msg(Pair(highs, lows), addr, port))
  }

  /** The two upper-case hex digits the octet repr `0x%02X` shows. */
  function HexPair(o: byte): (r: string)
    ensures |r| == 2
  {
    [Text.HexChar(High(o)), Text.HexChar(Low(o))]
  }

  /** The message written as hex digit pairs, the form `from_string` reads. */
  function ToHex(octets: seq<byte>): (r: string)
    ensures |r| == 2 * |octets|
    ensures forall i :: 0 <= i < |octets| ==>
      r[2 * i] == Text.HexChar(High(octets[i])) && r[2 * i + 1] == Text.HexChar(Low(octets[i]))
  {
    if |octets| == 0 then ""
    else HexPair(octets[0]) + ToHex(octets[1..])
  }

  /** Every character of the hex form is a hex digit. */
  lemma ToHexAllHex(octets: seq<byte>)
    ensures AllHex(ToHex(octets))
  {
    var s := ToHex(octets);
    forall i | 0 <= i < |s|
      ensures Text.HexDigit(s[i]).Some?
    {
      var k := i / 2;
      assert 0 <= k < |octets|;
      if i == 2 * k {
        assert s[i] == Text.HexChar(High(octets[k]));
      } else {
        assert i == 2 * k + 1;
        assert s[i] == Text.HexChar(Low(octets[k]));
      }
    }
  }

  /** Writing octets as hex and reading them back gives the same octets. */
  lemma HexRoundTrip(octets: seq<byte>, addr: Option<string>, port: Option<int>)
    ensures FromString(ToHex(octets), addr, port) == Success(Msg(octets, addr, port))
  {
    var s := ToHex(octets);
    ToHexAllHex(octets);
    var r := FromString(s, addr, port).value;
    assert |r.octets| == |octets|;
    forall i | 0 <= i < |octets|
      ensures r.octets[i] == octets[i]
    {
      assert Text.HexDigit(s[2 * i]).value == High(octets[i]);
      assert Text.HexDigit(s[2 * i + 1]).value == Low(octets[i]);
    }
    assert r.octets == octets;
  }

  /** `Msg.from_bytes`: each value stored into a c_uint8, which keeps its
      low eight bits. */
  function FromBytes(values: seq<int>, addr: Option<string>, port: Option<int>): (r: Msg)
    ensures |r.octets| == |values| && r.addr == addr && r.port == port
    ensures forall i :: 0 <= i < |values| ==> r.octets[i] == values[i] % 256
  {
    Msg(seq(|values|, i requires 0 <= i < |values| => values[i] % 256), addr, port)
  }

  /** `bytes(msg)`: the octet values in order. */
  function ToBytes(m: Msg): (r: seq<byte>)
    ensures |r| == |m.octets|
    ensures forall i :: 0 <= i < |r| ==> r[i] == m.octets[i]
  {
    m.octets
  }

  /** Bytes received and turned back into bytes are unchanged. */
  lemma BytesRoundTrip(data: seq<byte>, addr: Option<string>, port: Option<int>)
    ensures ToBytes(FromBytes(data, addr, port)) == data
  {
  }
}
