/** The Bedrock Edition status exchange: one RakNet "unconnected ping" datagram out, one
    "unconnected pong" back whose server-id string is a `;`-separated list of fields. */
module Bedrock {
  import opened Wrappers
  import opened Bytes
  import opened Text
  import opened Protocol
  import Utf8

  /** The RakNet offline-message magic. */
  const RakNetMagic: seq<byte> := [0x00, 0xFF, 0xFF, 0x00, 0xFE, 0xFE, 0xFE, 0xFE, 0xFD, 0xFD, 0xFD, 0xFD, 0x12, 0x34, 0x56, 0x78]

  /** The unconnected ping sent by every status request: id 01, a zero time stamp, then the
      magic. */
  const RequestStatusData: seq<byte> := [0x01, 0x00, 0x00, 0x00, 0x00, 0x00, 0x00, 0x00, 0x00] + RakNetMagic

  lemma RequestStatusLayout()
    ensures |RequestStatusData| == 25 && RequestStatusData[0] == 0x01
    ensures forall i :: 1 <= i < 9 ==> RequestStatusData[i] == 0
    ensures RequestStatusData[9..] == RakNetMagic
  {
  }

  const DefaultPort: int := 19132
  const DefaultTimeout: real := 3.0

  /** Where a status request goes. */
  datatype BedrockServerStatus = BedrockServerStatus(host: string, port: int, timeout: real)

  function NewStatus(host: string, port: Option<int>, timeout: Option<real>): (r: BedrockServerStatus)
    ensures r.host == host
    ensures r.port == (if port.Some? then port.value else 19132)
    ensures r.timeout == (if timeout.Some? then timeout.value else 3.0)
  {
    BedrockServerStatus(host, if port.Some? then port.value else DefaultPort,
                        if timeout.Some? then timeout.value else DefaultTimeout)
  }

  datatype Version = Version(protocol: string, brand: string)

  /** Every field is the text of the pong as sent; nothing is converted to a number. */
  datatype BedrockStatusResponse = BedrockStatusResponse(
    version: Version, latency: real, playersOnline: string, playersMax: string, motd: string,
    mapName: Option<string>, gamemode: Option<string>)

  /** `s[lo:hi]` for non-negative bounds: both ends are clamped to the length. */
  function Slice<T>(s: seq<T>, lo: nat, hi: nat): (r: seq<T>)
    ensures lo <= hi <= |s| ==> r == s[lo..hi]
    ensures |s| <= lo ==> r == []
    ensures lo <= |s| <= hi ==> r == s[lo..]
  {
    var a := if lo < |s| then lo else |s|;
    var b := if hi < |s| then hi else |s|;
    if b < a then [] else s[a..b]
  }

  /** No field of the response can hold the separator. */
  predicate NoSeparator(r: BedrockStatusResponse) {
    && ';' !in r.version.protocol && ';' !in r.version.brand && ';' !in r.playersOnline
    && ';' !in r.playersMax && ';' !in r.motd
    && (r.mapName.Some? ==> ';' !in r.mapName.value)
    && (r.gamemode.Some? ==> ';' !in r.gamemode.value)
  }

  /** `parse_response`: skip the packet id, read the big-endian length at offset 32 of the
      rest, decode that many bytes as UTF-8 and split them on `;`. Fields 0, 1, 2, 4 and 5
      must exist; the map and the game mode are both present only when fields 7 and 8 are. */
  function ParseResponse(data: seq<byte>, latency: real): (r: Outcome<BedrockStatusResponse>)
    ensures |data| < 35 ==> r == Failure(StructError)
    ensures r.Failure? ==> r.error in {StructError, UnicodeDecode, IndexError}
    ensures r.Success? ==> r.value.latency == latency && NoSeparator(r.value)
    ensures r.Success? ==> (r.value.mapName.Some? <==> r.value.gamemode.Some?)
  {
    var body := Slice(data, 1, |data|);
    var nameLength :- Unpack(UShort, Slice(body, 32, 34));
    var text :- DecodeText(Slice(body, 34, 34 + nameLength));
    FromFields(Split(text, ';'), latency)
  }

  /** `parse_response` once the length and the text are known. */
  lemma ParseStages(data: seq<byte>, n: nat, text: string, latency: real)
    requires Unpack(UShort, Slice(Slice(data, 1, |data|), 32, 34)) == Success(n)
    requires DecodeText(Slice(Slice(data, 1, |data|), 34, 34 + n)) == Success(text)
    ensures ParseResponse(data, latency) == FromFields(Split(text, ';'), latency)
  {
    var body := Slice(data, 1, |data|);
    var nameBytes := Slice(body, 34, 34 + n);
    assert DecodeText(nameBytes) == Success(text);
  }

  /** `bytes.decode()`: strict UTF-8. */
  function DecodeText(bs: seq<byte>): (r: Outcome<string>)
    ensures r.Success? <==> Utf8.Decode(bs).Some?
    ensures r.Success? ==> Utf8.Decode(bs) == Some(r.value)
    ensures r.Failure? ==> r.error == UnicodeDecode
  {
    match Utf8.Decode(bs)
    case None => Failure(UnicodeDecode)
    case Some(t) => Success(t)
  }

  /** The keyword arguments of the response, read off the split fields. */
  function FromFields(fields: seq<string>, latency: real): (r: Outcome<BedrockStatusResponse>)
    ensures r.Success? <==> |fields| >= 6
    ensures r.Failure? ==> r.error == IndexError
    ensures r.Success? ==> (r.value.mapName.Some? <==> |fields| >= 9)
    ensures r.Success? ==> (r.value.mapName.Some? <==> r.value.gamemode.Some?)
    ensures r.Success? ==> && r.value.version == Version(fields[2], fields[0]) && r.value.latency == latency
                           && r.value.playersOnline == fields[4] && r.value.playersMax == fields[5]
                           && r.value.motd == fields[1]
    ensures r.Success? && |fields| >= 9 ==> r.value.mapName == Some(fields[7]) && r.value.gamemode == Some(fields[8])
    ensures (forall i :: 0 <= i < |fields| ==> ';' !in fields[i]) && r.Success? ==> NoSeparator(r.value)
  {
    if |fields| < 6 then Failure(IndexError)
    else
      var extra := |fields| >= 9;
      Success(BedrockStatusResponse(
        Version(fields[2], fields[0]), latency, fields[4], fields[5], fields[1],
        if extra then Some(fields[7]) else None, if extra then Some(fields[8]) else None))
  }

  /** `read_status`: the request datagram it sends and what it makes of the reply, of which
      `recvfrom(2048)` keeps at most 2048 bytes. */
  function ReadStatus(status: BedrockServerStatus, datagram: seq<byte>, latency: real)
    : (r: (seq<byte>, Outcome<BedrockStatusResponse>))
    ensures r.0 == RequestStatusData
    ensures |datagram| <= 2048 ==> r.1 == ParseResponse(datagram, latency)
    ensures |datagram| > 2048 ==> r.1 == ParseResponse(datagram[..2048], latency)
  {
    (RequestStatusData, ParseResponse(Slice(datagram, 0, 2048), latency))
  }

  // ---------------------------------------------------------------- the reply, built

  /** An unconnected pong: the packet id, 32 bytes of time stamp, server GUID and magic, the
      big-endian length of the server-id string, then that string in UTF-8. */
  function UnconnectedPong(id: byte, header: seq<byte>, fields: seq<string>): (r: Outcome<seq<byte>>)
    requires |header| == 32 && |fields| >= 1
    ensures r.Success? <==> |Utf8.Encode(Join(fields, ';'))| < 0x1_0000
    ensures r.Success? ==> |r.value| == 35 + |Utf8.Encode(Join(fields, ';'))|
    ensures r.Failure? ==> r.error == StructError
  {
    var text := Utf8.Encode(Join(fields, ';'));
    assert Pow256(2) == 0x1_0000;
    var length :- Pack(UShort, |text|);
    assert |length| == 2;
    Success([id] + header + length + text)
  }

  /** The server-id string's bytes start at offset 35 of a pong, behind its length. */
  lemma PongBytes(id: byte, header: seq<byte>, fields: seq<string>, extra: seq<byte>)
    requires |header| == 32 && |fields| >= 1
    requires UnconnectedPong(id, header, fields).Success?
    ensures var data := UnconnectedPong(id, header, fields).value + extra;
            var body := Slice(data, 1, |data|);
            && Unpack(UShort, Slice(body, 32, 34)) == Success(|Utf8.Encode(Join(fields, ';'))|)
            && Slice(body, 34, 34 + |Utf8.Encode(Join(fields, ';'))|) == Utf8.Encode(Join(fields, ';'))
  {
    var text := Utf8.Encode(Join(fields, ';'));
    var length := Pack(UShort, |text|).value;
    var data := UnconnectedPong(id, header, fields).value + extra;
    var body := data[1..];
    assert body == header + (length + (text + extra));
    assert |length| == 2;
    assert body[32..] == length + (text + extra);
    assert body[32..34] == length;
    assert body[34..] == text + extra;
    assert body[34..34 + |text|] == text;
  }

  /** Parsing a pong built from six or more `;`-free fields gives exactly those fields back,
      whatever trails the string. */
  lemma ParseRoundTrip(id: byte, header: seq<byte>, fields: seq<string>, extra: seq<byte>, latency: real)
    requires |header| == 32 && |fields| >= 6
    requires forall i :: 0 <= i < |fields| ==> ';' !in fields[i]
    requires UnconnectedPong(id, header, fields).Success?
    ensures ParseResponse(UnconnectedPong(id, header, fields).value + extra, latency) == FromFields(fields, latency)
  {
    var text := Utf8.Encode(Join(fields, ';'));
    var data := UnconnectedPong(id, header, fields).value + extra;
    var body := Slice(data, 1, |data|);
    PongBytes(id, header, fields, extra);
    Utf8.DecodeEncode(Join(fields, ';'));
    assert DecodeText(Slice(body, 34, 34 + |text|)) == Success(Join(fields, ';'));
    ParseStages(data, |text|, Join(fields, ';'), latency);
    SplitJoin(fields, ';');
  }

  /** A string of one to five fields is an IndexError. */
  lemma FewFieldsIndexError(id: byte, header: seq<byte>, fields: seq<string>, extra: seq<byte>, latency: real)
    requires |header| == 32 && 1 <= |fields| < 6
    requires forall i :: 0 <= i < |fields| ==> ';' !in fields[i]
    requires UnconnectedPong(id, header, fields).Success?
    ensures ParseResponse(UnconnectedPong(id, header, fields).value + extra, latency) == Failure(IndexError)
  {
    PongBytes(id, header, fields, extra);
    Utf8.DecodeEncode(Join(fields, ';'));
    SplitJoin(fields, ';');
  }

  /** A string that is not UTF-8 is a UnicodeDecodeError. */
  lemma NotUtf8(id: byte, header: seq<byte>, text: seq<byte>, latency: real)
    requires |header| == 32 && |text| < 0x1_0000 && Utf8.Decode(text).None?
    ensures Pack(UShort, |text|).Success?
    ensures ParseResponse([id] + (header + (Pack(UShort, |text|).value + text)), latency) == Failure(UnicodeDecode)
  {
    assert Pow256(2) == 0x1_0000;
    var length := Pack(UShort, |text|).value;
    assert text + [] == text;
    FrameSlices(id, header, length, text, []);
    var data := [id] + (header + (length + text));
    var body := Slice(data, 1, |data|);
    assert Unpack(UShort, Slice(body, 32, 34)) == Success(|text|);
    assert DecodeText(Slice(body, 34, 34 + |text|)) == Failure(UnicodeDecode);
  }

  /** Where the length and the string sit in a datagram laid out as a pong. */
  lemma FrameSlices(id: byte, header: seq<byte>, length: seq<byte>, text: seq<byte>, extra: seq<byte>)
    requires |header| == 32 && |length| == 2
    ensures var data := [id] + (header + (length + (text + extra)));
            var body := Slice(data, 1, |data|);
            Slice(body, 32, 34) == length && Slice(body, 34, 34 + |text|) == text
  {
    var data := [id] + (header + (length + (text + extra)));
    var body := data[1..];
    assert body == header + (length + (text + extra));
    assert body[32..34] == length;
    assert body[34..34 + |text|] == text;
  }
}
