/** The Java edition "Server List Ping" of mcstatus/pinger.py: the handshake, status-request
    and ping packets a `ServerPinger` writes, the checks it makes on the replies, and the
    field-by-field validation of the status document (`PingResponse`, `Players`, `Player`,
    `Version`). `json.loads` is a parameter; the latency figure is a parameter too, because
    it is a difference of two clock readings. */
module Pinger {
  import opened Wrappers
  import opened Bytes
  import opened Json
  import opened Protocol
  import Utf8

  // ---------------------------------------------------------------- the status document

  datatype Player = Player(name: string, id: string)

  datatype Players = Players(online: int, max: int, sample: Option<seq<Player>>)

  datatype Version = Version(name: string, protocol: int)

  /** A validated status document. `description` and `favicon` are kept as whatever JSON the
      server sent; `latency` is None until `status()` fills it in. */
  datatype PingResponse = PingResponse(
    raw: Value,
    players: Players,
    version: Version,
    description: Value,
    favicon: Option<Value>,
    latency: Option<real>)

  predicate HasString(fields: map<string, Value>, key: string) { key in fields && fields[key].JString? }

  predicate HasInt(fields: map<string, Value>, key: string) { key in fields && IsInt(fields[key]) }

  /** The JSON a `Player` accepts: a dict with str `name` and str `id`. */
  predicate IsPlayerJson(v: Value) {
    v.JObject? && HasString(v.fields, "name") && HasString(v.fields, "id")
  }

  /** The JSON `Players` accepts: a dict with int `online` and `max`, and, when `sample` is
      present, a list of valid players. */
  predicate IsPlayersJson(v: Value) {
    && v.JObject? && HasInt(v.fields, "online") && HasInt(v.fields, "max")
    && ("sample" in v.fields ==>
          v.fields["sample"].JArray?
          && forall i :: 0 <= i < |v.fields["sample"].items| ==> IsPlayerJson(v.fields["sample"].items[i]))
  }

  /** The JSON a `Version` accepts: a dict with str `name` and int `protocol`. */
  predicate IsVersionJson(v: Value) {
    v.JObject? && HasString(v.fields, "name") && HasInt(v.fields, "protocol")
  }

  /** The JSON `PingResponse` accepts: a dict with valid `players` and `version` and some
      `description`. */
  predicate IsStatusJson(v: Value) {
    && v.JObject?
    && "players" in v.fields && IsPlayersJson(v.fields["players"])
    && "version" in v.fields && IsVersionJson(v.fields["version"])
    && "description" in v.fields
  }

  /** A required str field of the object `what`. */
  function StringField(what: string, fields: map<string, Value>, key: string): (r: Result<string, Invalid>)
    ensures r.Success? <==> HasString(fields, key)
    ensures r.Success? ==> r.value == fields[key].s
    ensures key !in fields ==> r == Failure(MissingField(what, key))
    ensures key in fields && !fields[key].JString? ==> r == Failure(WrongType(what, key))
  {
    if key !in fields then Failure(MissingField(what, key))
    else if !fields[key].JString? then Failure(WrongType(what, key))
    else Success(fields[key].s)
  }

  /** A required int field of the object `what`; a JSON bool is accepted as 0 or 1. */
  function IntField(what: string, fields: map<string, Value>, key: string): (r: Result<int, Invalid>)
    ensures r.Success? <==> HasInt(fields, key)
    ensures r.Success? ==> r.value == IntOf(fields[key])
    ensures key !in fields ==> r == Failure(MissingField(what, key))
    ensures key in fields && !IsInt(fields[key]) ==> r == Failure(WrongType(what, key))
  {
    if key !in fields then Failure(MissingField(what, key))
    else if !IsInt(fields[key]) then Failure(WrongType(what, key))
    else Success(IntOf(fields[key]))
  }

  /** `PingResponse.Players.Player(raw)`. */
  function ParsePlayer(v: Value): (r: Result<Player, Invalid>)
    ensures r.Success? <==> IsPlayerJson(v)
    ensures r.Success? ==> r.value == Player(v.fields["name"].s, v.fields["id"].s)
    ensures !v.JObject? ==> r == Failure(NotAnObject("player"))
  {
    if !v.JObject? then Failure(NotAnObject("player"))
    else
      var name :- StringField("player", v.fields, "name");
      var id :- StringField("player", v.fields, "id");
      Success(Player(name, id))
  }

  /** `[Player(p) for p in sample]`: the first invalid entry's error, or every entry parsed. */
  function ParseSample(items: seq<Value>): (r: Result<seq<Player>, Invalid>)
    ensures r.Success? <==> forall i :: 0 <= i < |items| ==> IsPlayerJson(items[i])
    ensures r.Success? ==> |r.value| == |items|
    ensures r.Success? ==> forall i :: 0 <= i < |items| ==> ParsePlayer(items[i]) == Success(r.value[i])
    ensures r.Failure? ==>
      exists k :: 0 <= k < |items| && ParsePlayer(items[k]) == Failure(r.error) &&
                  forall j :: 0 <= j < k ==> IsPlayerJson(items[j])
  {
    if |items| == 0 then Success([])
    else
      var first :- ParsePlayer(items[0]);
      var rest :- ParseSample(items[1..]);
      assert forall i :: 1 <= i < |items| ==> items[i] == items[1..][i - 1];
      Success([first] + rest)
  }

  /** `PingResponse.Players(raw)`: `online`, then `max`, then the optional `sample`. */
  function ParsePlayers(v: Value): (r: Result<Players, Invalid>)
    ensures r.Success? <==> IsPlayersJson(v)
    ensures r.Success? ==> r.value.online == IntOf(v.fields["online"]) && r.value.max == IntOf(v.fields["max"])
    ensures r.Success? ==> (r.value.sample.Some? <==> "sample" in v.fields)
    ensures r.Success? && r.value.sample.Some? ==> ParseSample(v.fields["sample"].items) == Success(r.value.sample.value)
    ensures !v.JObject? ==> r == Failure(NotAnObject("players"))
  {
    if !v.JObject? then Failure(NotAnObject("players"))
    else
      var online :- IntField("players", v.fields, "online");
      var max :- IntField("players", v.fields, "max");
      if "sample" !in v.fields then Success(Players(online, max, None))
      else if !v.fields["sample"].JArray? then Failure(WrongType("players", "sample"))
      else
        var sample :- ParseSample(v.fields["sample"].items);
        Success(Players(online, max, Some(sample)))
  }

  /** `PingResponse.Version(raw)`: `name`, then `protocol`. */
  function ParseVersion(v: Value): (r: Result<Version, Invalid>)
    ensures r.Success? <==> IsVersionJson(v)
    ensures r.Success? ==> r.value == Version(v.fields["name"].s, IntOf(v.fields["protocol"]))
    ensures !v.JObject? ==> r == Failure(NotAnObject("version"))
  {
    if !v.JObject? then Failure(NotAnObject("version"))
    else
      var name :- StringField("version", v.fields, "name");
      var protocol :- IntField("version", v.fields, "protocol");
      Success(Version(name, protocol))
  }

  /** The ValueError of a sub-validator, as `PingResponse` lets it escape. */
  function Reject<T>(r: Result<T, Invalid>): (o: Outcome<T>)
    ensures o.Success? <==> r.Success?
    ensures r.Success? ==> o.value == r.value
    ensures r.Failure? ==> o.error == Rejected(r.error)
  {
    match r
    case Success(x) => Success(x)
    case Failure(w) => Failure(Rejected(w))
  }

  /** `PingResponse(raw)`. The top level is not checked to be a dict: `"players" in raw` on a
      number, bool or null raises TypeError, and on a list or str that does contain "players"
      the following `raw["players"]` does. */
  function ParsePingResponse(raw: Value): (r: Outcome<PingResponse>)
    ensures r.Success? <==> IsStatusJson(raw)
    ensures r.Success? ==> r.value.raw == raw && r.value.latency == None
    ensures r.Success? ==> Success(r.value.players) == Reject(ParsePlayers(raw.fields["players"]))
    ensures r.Success? ==> Success(r.value.version) == Reject(ParseVersion(raw.fields["version"]))
    ensures r.Success? ==> r.value.description == raw.fields["description"]
    ensures r.Success? ==> r.value.favicon == if "favicon" in raw.fields then Some(raw.fields["favicon"]) else None
    ensures !raw.JObject? ==> r.Failure? && (r.error == TypeError || r.error == Rejected(MissingField("status", "players")))
  {
    var hasPlayers :- Contains(raw, "players");
    if !hasPlayers then Failure(Rejected(MissingField("status", "players")))
    else
      var playersJson :- Index(raw, "players");
      var players :- Reject(ParsePlayers(playersJson));
      if "version" !in raw.fields then Failure(Rejected(MissingField("status", "version")))
      else
        var version :- Reject(ParseVersion(raw.fields["version"]));
        if "description" !in raw.fields then Failure(Rejected(MissingField("status", "description")))
        else
          var favicon := if "favicon" in raw.fields then Some(raw.fields["favicon"]) else None;
          Success(PingResponse(raw, players, version, raw.fields["description"], favicon, None))
  }

  // ---------------------------------------------------------------- documents built from values

  function PlayerJson(p: Player): Value {
    JObject(map["name" := JString(p.name), "id" := JString(p.id)])
  }

  function SampleJson(ps: seq<Player>): (r: seq<Value>)
    ensures |r| == |ps| && forall i :: 0 <= i < |ps| ==> r[i] == PlayerJson(ps[i])
  {
    if |ps| == 0 then [] else [PlayerJson(ps[0])] + SampleJson(ps[1..])
  }

  function PlayersJson(p: Players): Value {
    var base := map["online" := JInt(p.online), "max" := JInt(p.max)];
    JObject(if p.sample.Some? then base["sample" := JArray(SampleJson(p.sample.value))] else base)
  }

  function VersionJson(v: Version): Value {
    JObject(map["name" := JString(v.name), "protocol" := JInt(v.protocol)])
  }

  /** The status document a server sends for the given values. */
  function StatusJson(players: Players, version: Version, description: Value, favicon: Option<Value>): Value {
    var base := map["players" := PlayersJson(players), "version" := VersionJson(version), "description" := description];
    JObject(if favicon.Some? then base["favicon" := favicon.value] else base)
  }

  lemma ParsePlayerJson(p: Player)
    ensures ParsePlayer(PlayerJson(p)) == Success(p)
  {
  }

  lemma ParseSampleJson(ps: seq<Player>)
    ensures ParseSample(SampleJson(ps)) == Success(ps)
  {
    var items := SampleJson(ps);
    forall i | 0 <= i < |items|
      ensures IsPlayerJson(items[i]) && ParsePlayer(items[i]) == Success(ps[i])
    {
      ParsePlayerJson(ps[i]);
    }
    var r := ParseSample(items);
    assert r.Success?;
    assert r.value == ps;
  }

  lemma ParsePlayersJson(p: Players)
    ensures ParsePlayers(PlayersJson(p)) == Success(p)
  {
    if p.sample.Some? {
      ParseSampleJson(p.sample.value);
      var items := SampleJson(p.sample.value);
      assert forall i :: 0 <= i < |items| ==> IsPlayerJson(items[i]);
    }
  }

  /** The validator accepts every document built from a players block, a version, a
      description and an optional favicon, and gives exactly those values back. */
  lemma ParseStatusJson(players: Players, version: Version, description: Value, favicon: Option<Value>)
    ensures ParsePingResponse(StatusJson(players, version, description, favicon))
         == Success(PingResponse(StatusJson(players, version, description, favicon), players, version, description, favicon, None))
  {
    ParsePlayersJson(players);
    var raw := StatusJson(players, version, description, favicon);
    assert raw.fields["players"] == PlayersJson(players);
    assert raw.fields["version"] == VersionJson(version);
  }

  // ---------------------------------------------------------------- the pinger

  /** `ServerPinger(connection, host, port, version, ping_token)` without the connection,
      which is passed to each operation. */
  datatype ServerPinger = ServerPinger(host: string, port: int, version: int, token: int)

  const DefaultProtocol: int := 47

  /** The constructor: with no token given, the token is `random.randint(0, 2**63 - 1)`,
      supplied here as `random`. */
  function NewPinger(host: string, port: int, version: int, token: Option<int>, random: int): (r: ServerPinger)
    requires 0 <= random < 0x8000_0000_0000_0000
    ensures r.host == host && r.port == port && r.version == version
    ensures token.None? ==> Long.Fits(r.token)
    ensures token.Some? ==> r.token == token.value
  {
    LongRange();
    ServerPinger(host, port, version, if token.Some? then token.value else random)
  }

  lemma LongRange()
    ensures Half(8) == 0x8000_0000_0000_0000
  {
    assert Pow256(4) == 0x1_0000_0000 by { Pow256Four(); }
    assert Pow256(7) == 0x100_0000_0000_0000;
  }

  /** The handshake packet before framing: varint 0 (packet id), varint protocol version,
      the host string as `write_utf` frames it (character-count prefix), the port as an
      unsigned short, varint 1 (next state: status). */
  function HandshakePacket(p: ServerPinger): (r: Outcome<seq<byte>>)
    ensures r.Success? <==> VarintMin <= p.version <= VarintMax && |p.host| <= VarintMax && UShort.Fits(p.port)
    ensures r.Failure? ==> r.error == VarintOutOfRange || r.error == StructError
  {
    var version :- VarintFrame(p.version);
    var host :- UtfFrameAsWritten(p.host);
    var port :- Pack(UShort, p.port);
    Success(VarintFrame(0).value + version + host + port + VarintFrame(1).value)
  }

  /** `handshake()`: the packet, length-prefixed, onto the connection. Nothing is written when
      building the packet fails. */
  function Handshake(p: ServerPinger, c: Connection): (r: Outcome<Connection>)
    ensures r.Success? <==> HandshakePacket(p).Success? && BufferFrame(HandshakePacket(p).value).Success?
    ensures r.Success? ==> r.value == Write(c, BufferFrame(HandshakePacket(p).value).value)
  {
    var packet :- HandshakePacket(p);
    var frame :- BufferFrame(packet);
    Success(Write(c, frame))
  }

  /** The server's reading of a handshake packet: id, protocol version, host, port and next
      state, in that order. */
  function ReadHandshake(packet: Connection): (r: Outcome<(int, int, string, int, int)>)
  {
    var Step(id, c1) := ReadVarint(packet);
    var id :- id;
    var Step(version, c2) := ReadVarint(c1);
    var version :- version;
    var Step(host, c3) := ReadUtf(c2);
    var host :- host;
    var Step(port, c4) := ReadFixed(c3, UShort);
    var port :- port;
    var Step(next, _) := ReadVarint(c4);
    var next :- next;
    Success((id, version, host, port, next))
  }

  /** What `handshake()` writes is one buffer. For an ASCII host, where the character count
      `write_utf` writes is the byte count, a server reads it back as packet 0 carrying this
      pinger's protocol version, host and port, asking for the status state. */
  lemma HandshakeRoundTrip(p: ServerPinger, sent: seq<byte>, rest: seq<byte>)
    requires Handshake(p, Fresh).Success?
    ensures ReadBuffer(Connection(sent, Handshake(p, Fresh).value.sent + rest))
         == Step(Success(Connection([], HandshakePacket(p).value)), Connection(sent, rest))
    ensures Utf8.IsAscii(p.host) ==>
      ReadHandshake(Connection([], HandshakePacket(p).value)) == Success((0, p.version, p.host, p.port, 1))
  {
    var packet := HandshakePacket(p).value;
    assert Handshake(p, Fresh).value.sent == BufferFrame(packet).value;
    BufferRoundTrip(packet, sent, rest);
    if Utf8.IsAscii(p.host) {
      ReadHandshakePacket(p);
    }
  }

  lemma ReadHandshakePacket(p: ServerPinger)
    requires HandshakePacket(p).Success? && Utf8.IsAscii(p.host)
    ensures ReadHandshake(Connection([], HandshakePacket(p).value)) == Success((0, p.version, p.host, p.port, 1))
  {
    UtfFrameAsWrittenAscii(p.host);
    var version := VarintFrame(p.version).value;
    var host := UtfFrame(p.host).value;
    var port := Pack(UShort, p.port).value;
    var one := VarintFrame(1).value;
    HandshakePacketShape(p);
    VarintRoundTrip(0, [], version + (host + (port + one)));
    VarintRoundTrip(p.version, [], host + (port + one));
    UtfRoundTrip(p.host, [], port + one);
    FixedRoundTrip(UShort, p.port, [], one);
    VarintRoundTrip(1, [], []);
    assert one + [] == one;
  }

  lemma HandshakePacketShape(p: ServerPinger)
    requires HandshakePacket(p).Success?
    ensures HandshakePacket(p).value
         == VarintFrame(0).value + (VarintFrame(p.version).value + (UtfFrameAsWritten(p.host).value + (Pack(UShort, p.port).value + VarintFrame(1).value)))
  {
  }

  /** A non-ASCII host is framed with too short a length: for the host "é" a server reading
      the handshake raises UnicodeDecodeError instead of getting the host back. */
  lemma HandshakeAccentedHost(version: int, port: int)
    requires VarintMin <= version <= VarintMax && UShort.Fits(port)
    ensures HandshakePacket(ServerPinger("é", port, version, 0)).Success?
    ensures ReadHandshake(Connection([], HandshakePacket(ServerPinger("é", port, version, 0)).value)).Failure?
    ensures ReadHandshake(Connection([], HandshakePacket(ServerPinger("é", port, version, 0)).value)).error == UnicodeDecode
  {
    var p := ServerPinger("é", port, version, 0);
    var v := VarintFrame(version).value;
    var host := UtfFrameAsWritten("é").value;
    var tail := Pack(UShort, port).value + VarintFrame(1).value;
    HandshakePacketShape(p);
    VarintRoundTrip(0, [], v + (host + tail));
    VarintRoundTrip(version, [], host + tail);
    UtfAsWrittenCounterexample(tail);
  }

  // ---------------------------------------------------------------- status request

  /** The status request as written: the buffer holding varint 0, i.e. 01 00. */
  const StatusRequest: seq<byte> := [0x01, 0x00]

  /** The reply packet of a status request: id 0, then the JSON text. A UTF-8 decoding error
      counts as invalid JSON (UnicodeDecodeError is a ValueError); a failed validation is
      reported as an invalid status response; other errors pass through. */
  function StatusReply(response: Connection, parseJson: string -> Option<Value>): (r: Outcome<PingResponse>)
    ensures ReadVarint(response).result.Failure? ==> r == Failure(ReadVarint(response).result.error)
    ensures ReadVarint(response).result.Success? && ReadVarint(response).result.value != 0 ==> r == Failure(InvalidStatusPacket)
    ensures ReadVarint(response).result == Success(0) && ReadUtf(ReadVarint(response).conn).result == Failure(UnicodeDecode) ==>
      r == Failure(InvalidJson)
    ensures r.Success? ==>
      ReadVarint(response).result == Success(0) && ReadUtf(ReadVarint(response).conn).result.Success? &&
      parseJson(ReadUtf(ReadVarint(response).conn).result.value).Some? &&
      ParsePingResponse(parseJson(ReadUtf(ReadVarint(response).conn).result.value).value) == r
    ensures ReadVarint(response).result == Success(0) && ReadUtf(ReadVarint(response).conn).result.Success? ==>
      var raw := parseJson(ReadUtf(ReadVarint(response).conn).result.value);
      raw.Some? && ParsePingResponse(raw.value).Failure? && ParsePingResponse(raw.value).error.Rejected? ==>
        r == Failure(InvalidStatusResponse(ParsePingResponse(raw.value).error.why))
  {
    var Step(id, c1) := ReadVarint(response);
    var id :- id;
    if id != 0 then Failure(InvalidStatusPacket)
    else
      var Step(text, _) := ReadUtf(c1);
      if text == Failure(UnicodeDecode) then Failure(InvalidJson)
      else
        var text :- text;
        match parseJson(text)
        case None => Failure(InvalidJson)
        case Some(raw) =>
          match ParsePingResponse(raw)
          case Failure(Rejected(why)) => Failure(InvalidStatusResponse(why))
          case other => other
  }

  /** `read_status()`: writes the request, reads one buffer and checks it. */
  function ReadStatus(c: Connection, parseJson: string -> Option<Value>): (r: Step<PingResponse>)
    ensures r.conn.sent == c.sent + StatusRequest
    ensures r.result.Success? ==> ParsePingResponse(r.result.value.raw) == Success(r.result.value)
  {
    var c1 := Write(c, StatusRequest);
    var Step(response, c2) := ReadBuffer(c1);
    match response
    case Failure(e) => Step(Failure(e), c2)
    case Success(packet) => Step(StatusReply(packet, parseJson), c2)
  }

  /** The request bytes are the framing of a packet holding only varint 0. */
  lemma StatusRequestFrame()
    ensures BufferFrame(VarintFrame(0).value) == Success(StatusRequest)
  {
    Pow256Four();
    assert VarintBytes(0, 5) == [0x00] && VarintBytes(1, 5) == [0x01];
    assert VarintFrame(0) == Success([0x00]) && VarintFrame(1) == Success([0x01]);
    assert [0x01] + [0x00] == StatusRequest;
  }

  /** A server that answers with packet 0 holding the text of a valid document gets that
      document back from `read_status`; one it rejects is an invalid status response. */
  lemma StatusReplyRoundTrip(text: string, raw: Value, parseJson: string -> Option<Value>)
    requires UtfFrame(text).Success? && parseJson(text) == Some(raw)
    ensures ParsePingResponse(raw).Success? ==>
      StatusReply(Connection([], VarintFrame(0).value + UtfFrame(text).value), parseJson) == ParsePingResponse(raw)
    ensures ParsePingResponse(raw).Failure? && ParsePingResponse(raw).error.Rejected? ==>
      StatusReply(Connection([], VarintFrame(0).value + UtfFrame(text).value), parseJson)
        == Failure(InvalidStatusResponse(ParsePingResponse(raw).error.why))
  {
    VarintRoundTrip(0, [], UtfFrame(text).value);
    UtfRoundTrip(text, [], []);
    assert UtfFrame(text).value + [] == UtfFrame(text).value;
  }

  /** Any packet id other than 0 is rejected before the payload is looked at. */
  lemma StatusReplyWrongId(id: int, more: seq<byte>, parseJson: string -> Option<Value>)
    requires VarintMin <= id <= VarintMax && id != 0
    ensures StatusReply(Connection([], VarintFrame(id).value + more), parseJson) == Failure(InvalidStatusPacket)
  {
    VarintRoundTrip(id, [], more);
  }

  /** `read_status` hands the single buffer queued on the connection to the reply check and
      consumes exactly it. */
  lemma ReadStatusRoundTrip(c: Connection, reply: seq<byte>, rest: seq<byte>, parseJson: string -> Option<Value>)
    requires BufferFrame(reply).Success? && c.received == BufferFrame(reply).value + rest
    ensures ReadStatus(c, parseJson) == Step(StatusReply(Connection([], reply), parseJson), Connection(c.sent + StatusRequest, rest))
  {
    BufferRoundTrip(reply, c.sent + StatusRequest, rest);
  }

  // ---------------------------------------------------------------- ping

  /** The ping request: the buffer holding varint 1 and the token as a signed long. A token
      outside the signed 64-bit range makes `write_long` raise before anything is written. */
  function PingFrame(token: int): (r: Outcome<seq<byte>>)
    ensures r.Success? <==> Long.Fits(token)
    ensures r.Failure? ==> r.error == StructError
    ensures r.Success? ==> |r.value| == 10 && r.value[..2] == [0x09, 0x01] && Unpack(Long, r.value[2..]) == Success(token)
  {
    var tokenBytes :- Pack(Long, token);
    var packet := VarintFrame(1).value + tokenBytes;
    PingFrameShape(tokenBytes);
    Success(BufferFrame(packet).value)
  }

  lemma PingFrameShape(tokenBytes: seq<byte>)
    requires |tokenBytes| == 8
    ensures VarintFrame(1).value + tokenBytes == [0x01] + tokenBytes
    ensures BufferFrame([0x01] + tokenBytes) == Success([0x09, 0x01] + tokenBytes)
  {
    Pow256Four();
    assert VarintBytes(1, 5) == [0x01] && VarintBytes(9, 5) == [0x09];
    assert VarintFrame(1) == Success([0x01]) && VarintFrame(9) == Success([0x09]);
    assert [0x09] + ([0x01] + tokenBytes) == [0x09, 0x01] + tokenBytes;
  }

  /** The reply packet of a ping: id 1, then the echoed token. */
  function PingReply(response: Connection, token: int, latency: real): (r: Outcome<real>)
    ensures r.Success? ==> r.value == latency
    ensures r.Success? ==> ReadVarint(response).result == Success(1)
    ensures r.Success? ==> ReadFixed(ReadVarint(response).conn, Long).result == Success(token)
  {
    var Step(id, c1) := ReadVarint(response);
    var id :- id;
    if id != 1 then Failure(InvalidPingPacket)
    else
      var Step(received, _) := ReadFixed(c1, Long);
      var received :- received;
      if received != token then Failure(MangledPing(token, received))
      else Success(latency)
  }

  /** `test_ping()`: writes the ping request, reads one buffer and checks the echo. On success
      the result is the measured round trip in milliseconds, given here as `latency`. */
  function TestPing(p: ServerPinger, c: Connection, latency: real): (r: Step<real>)
    ensures PingFrame(p.token).Failure? ==> r == Step(Failure(StructError), c)
    ensures PingFrame(p.token).Success? ==> r.conn.sent == c.sent + PingFrame(p.token).value
    ensures r.result.Success? ==> r.result.value == latency
  {
    match PingFrame(p.token)
    case Failure(e) => Step(Failure(e), c)
    case Success(frame) =>
      var c1 := Write(c, frame);
      var Step(response, c2) := ReadBuffer(c1);
      match response
      case Failure(e) => Step(Failure(e), c2)
      case Success(packet) => Step(PingReply(packet, p.token, latency), c2)
  }

  /** The ping frame body is varint 1 and the token bytes. */
  lemma PingFrameBody(token: int)
    requires Long.Fits(token)
    ensures PingFrame(token).value == BufferFrame([0x01] + Pack(Long, token).value).value
    ensures BufferFrame([0x01] + Pack(Long, token).value).Success?
  {
    PingFrameShape(Pack(Long, token).value);
  }

  /** A ping request is 09 01 followed by the token's eight bytes. */
  lemma PingFrameBytes(token: int, tokenBytes: seq<byte>)
    requires Pack(Long, token) == Success(tokenBytes)
    ensures PingFrame(token) == Success([0x09, 0x01] + tokenBytes)
  {
    PingFrameShape(tokenBytes);
  }

  /** `test_ping` sends its request, then reads one buffer frame and judges only the bytes that
      frame holds; what follows it stays unread. */
  lemma TestPingReads(p: ServerPinger, sent: seq<byte>, reply: seq<byte>, rest: seq<byte>, latency: real)
    requires Long.Fits(p.token) && |reply| <= VarintMax
    ensures TestPing(p, Connection(sent, BufferFrame(reply).value + rest), latency)
         == Step(PingReply(Connection([], reply), p.token, latency), Connection(sent + PingFrame(p.token).value, rest))
  {
    BufferRoundTrip(reply, sent + PingFrame(p.token).value, rest);
  }

  /** The in-memory reads take what is queued: a reply whose length prefix says 20 but which
      holds only the nine bytes after it still passes `test_ping` when they echo the token. */
  lemma PingShortFrame(p: ServerPinger, sent: seq<byte>, latency: real)
    requires Long.Fits(p.token)
    ensures TestPing(p, Connection(sent, [0x14, 0x01] + Pack(Long, p.token).value), latency).result == Success(latency)
  {
    var tokenBytes := Pack(Long, p.token).value;
    PingFrameBody(p.token);
    var frame := PingFrame(p.token).value;
    var c1 := Write(Connection(sent, [0x14, 0x01] + tokenBytes), frame);
    assert c1 == Connection(sent + frame, [20 as byte] + ([0x01] + tokenBytes));
    ReadBufferShort(sent + frame, 20, [0x01] + tokenBytes);
    PongEcho(p.token, latency);
    assert ReadBuffer(c1).result == Success(Connection([], [0x01] + tokenBytes));
  }

  /** A pong holding id 1 and the token is accepted. */
  lemma PongEcho(token: int, latency: real)
    requires Long.Fits(token)
    ensures PingReply(Connection([], [0x01] + Pack(Long, token).value), token, latency) == Success(latency)
  {
    var tokenBytes := Pack(Long, token).value;
    SmallVarint(1);
    assert [0x01] + tokenBytes == VarintFrame(1).value + tokenBytes;
    VarintRoundTrip(1, [], tokenBytes);
    FixedRoundTrip(Long, token, [], []);
    assert tokenBytes + [] == tokenBytes;
  }

  /** A server that echoes the ping request back makes `test_ping` succeed, consuming exactly
      the echo. */
  lemma PingEcho(p: ServerPinger, sent: seq<byte>, rest: seq<byte>, latency: real)
    requires Long.Fits(p.token)
    ensures TestPing(p, Connection(sent, PingFrame(p.token).value + rest), latency)
         == Step(Success(latency), Connection(sent + PingFrame(p.token).value, rest))
  {
    var tokenBytes := Pack(Long, p.token).value;
    PingFrameBody(p.token);
    var body := [0x01] + tokenBytes;
    var frame := PingFrame(p.token).value;
    BufferRoundTrip(body, sent + frame, rest);
    PingFrameShape(tokenBytes);
    VarintRoundTrip(1, [], tokenBytes);
    FixedRoundTrip(Long, p.token, [], []);
    assert tokenBytes + [] == tokenBytes;
  }

  /** An echo carrying any other token is a mangled ping naming both tokens. */
  lemma PingMangled(token: int, other: int, latency: real)
    requires Long.Fits(other) && other != token
    ensures PingReply(Connection([], [0x01] + Pack(Long, other).value), token, latency) == Failure(MangledPing(token, other))
  {
    var bs := Pack(Long, other).value;
    PingFrameShape(bs);
    VarintRoundTrip(1, [], bs);
    FixedRoundTrip(Long, other, [], []);
    assert bs + [] == bs;
  }

  /** A server that echoes the ping request of another token makes `test_ping` fail with both
      tokens named, consuming exactly the echo. */
  lemma PingOtherEcho(p: ServerPinger, other: int, sent: seq<byte>, rest: seq<byte>, latency: real)
    requires Long.Fits(p.token) && Long.Fits(other) && other != p.token
    ensures TestPing(p, Connection(sent, PingFrame(other).value + rest), latency)
         == Step(Failure(MangledPing(p.token, other)), Connection(sent + PingFrame(p.token).value, rest))
  {
    PingFrameBody(other);
    TestPingReads(p, sent, [0x01] + Pack(Long, other).value, rest, latency);
    PingMangled(p.token, other, latency);
  }

  /** Any reply id other than 1 is rejected. */
  lemma PingReplyWrongId(id: int, more: seq<byte>, token: int, latency: real)
    requires VarintMin <= id <= VarintMax && id != 1
    ensures PingReply(Connection([], VarintFrame(id).value + more), token, latency) == Failure(InvalidPingPacket)
  {
    VarintRoundTrip(id, [], more);
  }
}
