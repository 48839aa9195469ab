/** The Python 2 script `minecraft_query.py`: `MinecraftQuery` speaks the query protocol with
    its own packet layout and its own parsers of the basic-stat (`get_status`) and full-stat
    (`get_rules`) replies. Its strings are byte strings: packets stay bytes, and text is read
    one character per byte (`Latin1Decode`). */
module LegacyQuery {
  import opened Wrappers
  import opened Bytes
  import opened Text
  import opened Protocol
  import Utf8
  import Querier

  const Magic: seq<byte> := [0xFE, 0xFD]
  const ChallengeType: byte := 9
  const QueryType: byte := 0

  /** `recvfrom(1460)` keeps at most this many bytes of a datagram. */
  const MaxDatagram: nat := 1460

  // ---------------------------------------------------------------- state and packets

  /** A `MinecraftQuery`: its id and its challenge, each next to the four bytes `struct.pack('>l')`
      made of it. `challenge` is None until a handshake sets it (`hasattr(self, 'challenge')`),
      and the packets then carry challenge 0. */
  datatype MinecraftQuery = MinecraftQuery(id: int, idPacked: seq<byte>, challenge: Option<int>, challengePacked: seq<byte>)

  /** The challenge a query's packets carry. */
  function ChallengeOf(q: MinecraftQuery): int
  {
    if q.challenge.Some? then q.challenge.value else 0
  }

  /** The packed fields are the packing of the values beside them. */
  predicate Valid(q: MinecraftQuery)
  {
    Unpack(Int, q.idPacked) == Success(q.id) && Unpack(Int, q.challengePacked) == Success(ChallengeOf(q))
  }

  /** `MinecraftQuery(host, port, id=id)`: the id is packed at once, so one that does not fit a
      signed 32-bit integer is a struct.error. */
  function NewQuery(id: int): (r: Outcome<MinecraftQuery>)
    ensures r.Success? <==> Int.Fits(id)
    ensures r.Failure? ==> r.error == StructError
    ensures r.Success? ==> r.value.id == id && r.value.challenge.None? && Valid(r.value)
  {
    var idPacked :- Pack(Int, id);
    assert Int.Fits(0);
    Success(MinecraftQuery(id, idPacked, None, Pack(Int, 0).value))
  }

  /** `send_packet(type, data)`: the datagram `send_raw` puts on the wire, FE FD, the type byte,
      the id, the challenge, then the data. */
  function SendPacket(q: MinecraftQuery, kind: byte, data: seq<byte>): (r: seq<byte>)
    ensures Valid(q) ==> |r| == 11 + |data| && r[..2] == Magic && r[2] == kind && r[11..] == data
    ensures Valid(q) ==> Unpack(Int, r[3..7]) == Success(q.id) && Unpack(Int, r[7..11]) == Success(ChallengeOf(q))
  {
    var r := Magic + [kind] + q.idPacked + q.challengePacked + data;
    if Valid(q) then
      assert r[3..7] == q.idPacked && r[7..11] == q.challengePacked && r[11..] == data;
      r
    else r
  }

  /** `read_packet()` on the datagram the server sent: the type byte, the id (big-endian signed
      32-bit) and the payload after them. `buff[0]` of an empty datagram is an IndexError and
      the unpack of fewer than four id bytes a struct.error. */
  function ReadPacket(datagram: seq<byte>): (r: Outcome<(int, int, seq<byte>)>)
    ensures r.Success? <==> |datagram| >= 5
    ensures |datagram| == 0 ==> r == Failure(IndexError)
    ensures 0 < |datagram| < 5 ==> r == Failure(StructError)
    ensures r.Success? ==> r.value.0 == datagram[0] as int && Unpack(Int, datagram[1..5]) == Success(r.value.1)
    ensures r.Success? && |datagram| <= MaxDatagram ==> r.value.2 == datagram[5..]
    ensures r.Success? && |datagram| > MaxDatagram ==> r.value.2 == datagram[5..MaxDatagram]
  {
    var buff := if |datagram| <= MaxDatagram then datagram else datagram[..MaxDatagram];
    if |buff| == 0 then Failure(IndexError)
    else
      var id :- Unpack(Int, buff[1..if |buff| < 5 then |buff| else 5]);
      assert buff[1..5] == datagram[1..5];
      Success((buff[0] as int, id, buff[5..]))
  }

  /** A reply laid out as `read_packet` expects is read back field for field. */
  lemma ReadPacketRoundTrip(kind: byte, id: int, payload: seq<byte>)
    requires Int.Fits(id) && 5 + |payload| <= MaxDatagram
    ensures ReadPacket([kind] + Pack(Int, id).value + payload) == Success((kind as int, id, payload))
  {
    var d := [kind] + Pack(Int, id).value + payload;
    assert d[1..5] == Pack(Int, id).value && d[5..] == payload;
  }

  /** What a query sends, read the way `read_packet` reads a reply: behind the magic, the type,
      the query's id and a payload of the packed challenge and the data. */
  lemma SendReadRoundTrip(q: MinecraftQuery, kind: byte, data: seq<byte>)
    requires Valid(q) && 11 + |data| <= MaxDatagram
    ensures ReadPacket(SendPacket(q, kind, data)[2..]) == Success((kind as int, q.id, q.challengePacked + data))
  {
    var r := SendPacket(q, kind, data);
    assert r[2..] == [kind] + q.idPacked + (q.challengePacked + data);
    PackUnpack(Int, q.idPacked);
    ReadPacketRoundTrip(kind, q.id, q.challengePacked + data);
  }

  // ---------------------------------------------------------------- handshake

  /** The text of a challenge reply's payload: all of it but the last byte (`buff[:-1]`). */
  function ChallengeText(payload: seq<byte>): string
  {
    Utf8.Latin1Decode(if |payload| == 0 then [] else payload[..|payload| - 1])
  }

  /** What `handshake()` leaves behind: the challenge it read, or its error, and the object. */
  datatype Handshaken = Handshaken(result: Outcome<int>, query: MinecraftQuery)

  /** `handshake()` once its challenge request is out: the challenge is `int()` of the reply's
      payload without its last byte, packed again at once, so a text that is not an integer is
      a ValueError and one outside the signed 32-bit range a struct.error. The object takes
      the challenge BEFORE it is packed: after that struct.error it holds the new challenge
      beside the packing it had before. */
  function Handshake(q: MinecraftQuery, reply: seq<byte>): (r: Handshaken)
    ensures ReadPacket(reply).Failure? ==> r == Handshaken(Failure(ReadPacket(reply).error), q)
    ensures r.result.Success? ==>
      ReadPacket(reply).Success? && ParseInt(ChallengeText(ReadPacket(reply).value.2), Py2) == Some(r.result.value)
    ensures r.result.Success? ==>
      r.query.challenge == Some(r.result.value) && Unpack(Int, r.query.challengePacked) == Success(r.result.value)
    ensures ReadPacket(reply).Success? && ParseInt(ChallengeText(ReadPacket(reply).value.2), Py2).None? ==>
      r == Handshaken(Failure(NotAnInteger(ChallengeText(ReadPacket(reply).value.2))), q)
    ensures ReadPacket(reply).Success? && ParseInt(ChallengeText(ReadPacket(reply).value.2), Py2).Some? ==>
      r.query.challenge == ParseInt(ChallengeText(ReadPacket(reply).value.2), Py2) &&
      (r.result.Success? <==> Int.Fits(ParseInt(ChallengeText(ReadPacket(reply).value.2), Py2).value))
    ensures r.result.Failure? && !r.result.error.NotAnInteger? && ReadPacket(reply).Success? ==>
      r.result.error == StructError && r.query == q.(challenge := r.query.challenge)
    ensures r.query.id == q.id && r.query.idPacked == q.idPacked
    ensures r.result.Success? && Valid(q) ==> Valid(r.query)
  {
    match ReadPacket(reply)
    case Failure(e) => Handshaken(Failure(e), q)
    case Success(packet) =>
      var text := ChallengeText(packet.2);
      match ParseInt(text, Py2)
      case None => Handshaken(Failure(NotAnInteger(text)), q)
      case Some(n) =>
        var q1 := q.(challenge := Some(n));
        match Pack(Int, n)
        case Failure(e) => Handshaken(Failure(e), q1)
        case Success(packed) =>
          PackUnpack(Int, packed);
          Handshaken(Success(n), q1.(challengePacked := packed))
  }

  /** The bytes of `str(n)`. */
  function Decimal(n: int): (r: seq<byte>)
    ensures Utf8.Latin1Decode(r) == FormatInt(n)
    ensures |r| == |FormatInt(n)|
  {
    DecimalLatin1(n);
    Utf8.Latin1RoundTrip(FormatInt(n));
    Utf8.Latin1Encode(FormatInt(n)).value
  }

  lemma DecimalLatin1(n: int)
    ensures Utf8.Latin1Encode(FormatInt(n)).Success?
  {
    var s := FormatInt(n);
    forall i | 0 <= i < |s| ensures s[i] as int < 256 {
      if n < 0 && i > 0 {
        assert s[i] == Digits(-n)[i - 1];
      }
    }
  }

  function Pow10(k: nat): (r: nat)
    ensures r >= 1
  {
    if k == 0 then 1 else 10 * Pow10(k - 1)
  }

  lemma {:induction false} DigitsAtMost(n: nat, k: nat)
    requires 1 <= k && n < Pow10(k)
    ensures |Digits(n)| <= k
    decreases k
  {
    if n >= 10 {
      DigitsAtMost(n / 10, k - 1);
    }
  }

  /** A challenge of at most ten digits, which every signed 32-bit one is, is at most eleven
      characters long. */
  lemma ChallengeDigits(n: int)
    requires -10_000_000_000 < n < 10_000_000_000
    ensures |FormatInt(n)| <= 11
  {
    assert Pow10(10) == 10_000_000_000 by { assert Pow10(5) == 100_000; }
    DigitsAtMost(if n < 0 then -n else n, 10);
  }

  /** A server that sends the decimal challenge `n`, with any last byte, sets the challenge to
      `n`, whatever the reply's type and id. */
  lemma HandshakeRoundTrip(q: MinecraftQuery, kind: byte, sid: int, n: int, last: byte)
    requires Int.Fits(sid) && Int.Fits(n)
    ensures Handshake(q, [kind] + Pack(Int, sid).value + Decimal(n) + [last])
         == Handshaken(Success(n), q.(challenge := Some(n), challengePacked := Pack(Int, n).value))
  {
    var payload := Decimal(n) + [last];
    Pow256Four();
    ChallengeDigits(n);
    ReadPacketRoundTrip(kind, sid, payload);
    assert [kind] + Pack(Int, sid).value + Decimal(n) + [last] == [kind] + Pack(Int, sid).value + payload;
    assert payload[..|payload| - 1] == Decimal(n);
    ParseFormatInt(n, Py2);
  }

  /** A challenge that is an integer too big for 32 bits: the handshake fails with a
      struct.error, and the object is left holding the new challenge beside the old packing. */
  lemma OversizedChallenge(q: MinecraftQuery, kind: byte, sid: int, n: int)
    requires Int.Fits(sid) && !Int.Fits(n) && -10_000_000_000 < n < 10_000_000_000
    ensures Handshake(q, ChallengeReply(kind, sid, n)) == Handshaken(Failure(StructError), q.(challenge := Some(n)))
  {
    var reply := ChallengeReply(kind, sid, n);
    assert ReadPacket(reply).Success? && ChallengeText(ReadPacket(reply).value.2) == FormatInt(n) by {
      var payload := Decimal(n) + [0];
      ChallengeDigits(n);
      ReadPacketRoundTrip(kind, sid, payload);
      assert reply == [kind] + Pack(Int, sid).value + payload;
      assert payload[..|payload| - 1] == Decimal(n);
    }
    ParseFormatInt(n, Py2);
  }

  /** After that struct.error, the object counts as having a challenge, so the next
      `get_status` or `get_rules` skips the handshake and its query packet carries the
      challenge 0 packed when the object was made, not the server's. */
  lemma StaleChallenge(q: MinecraftQuery, kind: byte, sid: int, n: int, data: seq<byte>, replies: seq<seq<byte>>)
    requires Valid(q) && q.challenge.None?
    requires Int.Fits(sid) && !Int.Fits(n) && -10_000_000_000 < n < 10_000_000_000
    ensures var q2 := Handshake(q, ChallengeReply(kind, sid, n)).query;
      q2.challenge == Some(n) && Ask(q2, data, replies).sent == [SendPacket(q2, QueryType, data)] &&
      Carries(SendPacket(q2, QueryType, data), 0)
  {
    OversizedChallenge(q, kind, sid, n);
    var q2 := q.(challenge := Some(n));
    assert Handshake(q, ChallengeReply(kind, sid, n)).query == q2;
    assert EnsureChallenge(q2, replies) == Exchange(Success(replies), q2, []);
    assert Ask(q2, data, replies).sent == [SendPacket(q2, QueryType, data)];
    StalePacket(q, n, data);
  }

  /** A query packet of an object whose challenge is set but never packed carries challenge 0. */
  lemma StalePacket(q: MinecraftQuery, n: int, data: seq<byte>)
    requires Valid(q) && q.challenge.None?
    ensures Carries(SendPacket(q.(challenge := Some(n)), QueryType, data), 0)
  {
    var packet := SendPacket(q.(challenge := Some(n)), QueryType, data);
    assert |q.idPacked| == 4 && |q.challengePacked| == 4;
    assert packet[7..11] == q.challengePacked;
  }

  // ---------------------------------------------------------------- get_status

  /** A value of the dictionaries the script returns: a byte string, an integer, or a list of
      byte strings. */
  datatype PyValue = Str(text: string) | Num(n: int) | List(items: seq<string>)

  /** `int(v)` where it succeeds, and the text unchanged where it raises: the script's
      `try: data[key] = int(data[key]) except: pass`. */
  function Numeric(s: string): (r: PyValue)
    ensures r.Num? <==> ParseInt(s, Py2).Some?
    ensures r.Num? ==> ParseInt(s, Py2) == Some(r.n)
    ensures !r.Num? ==> r == Str(s)
  {
    match ParseInt(s, Py2)
    case Some(n) => Num(n)
    case None => Str(s)
  }

  /** `struct.unpack('<h', b)`, how `get_status` reads the port: two little-endian bytes as a
      SIGNED 16-bit value. */
  function HostPortAsWritten(b: seq<byte>): (r: int)
    requires |b| == 2
    ensures -0x8000 <= r < 0x8000
  {
    ToSigned(DecodeLE(b), 2)
  }

  /** The port as a server writes it: two little-endian bytes as an UNSIGNED 16-bit value
      (`'<H'`). */
  function HostPort(b: seq<byte>): (r: nat)
    requires |b| == 2
    ensures r < 0x1_0000
  {
    DecodeLE(b)
  }

  /** The two bytes a server writes for its port, low byte first. */
  function PortBytes(port: nat): (r: seq<byte>)
    requires port < 0x1_0000
    ensures |r| == 2
  {
    [(port % 256) as byte, (port / 256) as byte]
  }

  /** Every port survives the unsigned reading. */
  lemma HostPortRoundTrip(port: nat)
    requires port < 0x1_0000
    ensures HostPort(PortBytes(port)) == port
  {
    var b := PortBytes(port);
    assert DecodeLE(b[1..]) == b[1] as int by { assert b[1..][1..] == []; }
  }

  /** The signed reading agrees with the unsigned one on ports below 32768 and is off by
      65536 on every port from 32768 up. */
  lemma HostPortAsWrittenWraps(port: nat)
    requires port < 0x1_0000
    ensures port < 0x8000 ==> HostPortAsWritten(PortBytes(port)) == port
    ensures port >= 0x8000 ==> HostPortAsWritten(PortBytes(port)) == port - 0x1_0000
  {
    HostPortRoundTrip(port);
    assert Pow256(2) == 0x1_0000 && Half(2) == 0x8000;
  }

  /** A server on port 40000 is reported as being on port -25536. */
  lemma HostPortAsWrittenCounterexample()
    ensures HostPortAsWritten(PortBytes(40000)) == -25536
    ensures HostPort(PortBytes(40000)) == 40000
  {
    HostPortAsWrittenWraps(40000);
  }

  /** The port `get_status` reports for a server on `port`: the port itself below 32768, and
      the port less 65536 from there up. */
  function ReportedPort(port: nat): (r: int)
    requires port < 0x1_0000
    ensures -0x8000 <= r < 0x8000
    ensures r % 0x1_0000 == port
  {
    if port < 0x8000 then port else port - 0x1_0000
  }

  /** The reply `get_status` returns. `numplayers` and `maxplayers` are integers where `int()`
      accepts them and text otherwise. */
  datatype BasicStatus = BasicStatus(motd: string, gametype: string, mapName: string, numplayers: PyValue,
                                     maxplayers: PyValue, hostport: int, hostname: string)

  /** `get_status` once the reply's payload is in: five NUL-terminated fields (`split('\x00', 5)`
      must give exactly six pieces), then, in the last piece, the port in two bytes and the host
      name up to its final byte. The port is read SIGNED, as `'<h'` reads it, so a port from
      32768 up comes back negative (see `HostPortAsWrittenWraps`). */
  function ParseBasicStat(payload: seq<byte>): (r: Outcome<BasicStatus>)
    ensures |SplitMax(payload, 0, 5)| != 6 <==> r == Failure(SplitArity)
    ensures |SplitMax(payload, 0, 5)| == 6 ==> (r.Success? <==> |SplitMax(payload, 0, 5)[5]| >= 2)
    ensures r.Failure? && r != Failure(SplitArity) ==> r.error == StructError
    ensures r.Success? ==> -0x8000 <= r.value.hostport < 0x8000
  {
    var parts := SplitMax(payload, 0, 5);
    if |parts| != 6 then Failure(SplitArity)
    else if |parts[5]| < 2 then Failure(StructError)
    else Success(StatusOf(parts))
  }

  /** The reply made of the six pieces of a basic-stat payload. */
  function StatusOf(parts: seq<seq<byte>>): (r: BasicStatus)
    requires |parts| == 6 && |parts[5]| >= 2
    ensures |r.motd| == |parts[0]| && |r.gametype| == |parts[1]| && |r.mapName| == |parts[2]|
    ensures forall i :: 0 <= i < |r.motd| ==> r.motd[i] as int == parts[0][i]
    ensures forall i :: 0 <= i < |r.gametype| ==> r.gametype[i] as int == parts[1][i]
    ensures forall i :: 0 <= i < |r.mapName| ==> r.mapName[i] as int == parts[2][i]
    ensures r.numplayers == Numeric(Utf8.Latin1Decode(parts[3])) && r.maxplayers == Numeric(Utf8.Latin1Decode(parts[4]))
    ensures r.hostport == HostPortAsWritten(parts[5][..2]) && -0x8000 <= r.hostport < 0x8000
    ensures |r.hostname| == if |parts[5]| == 2 then 0 else |parts[5]| - 3
    ensures forall i :: 0 <= i < |r.hostname| ==> r.hostname[i] as int == parts[5][2 + i]
  {
    var tail := parts[5][2..];
    BasicStatus(Utf8.Latin1Decode(parts[0]), Utf8.Latin1Decode(parts[1]), Utf8.Latin1Decode(parts[2]),
                Numeric(Utf8.Latin1Decode(parts[3])), Numeric(Utf8.Latin1Decode(parts[4])),
                HostPortAsWritten(parts[5][..2]), Utf8.Latin1Decode(if |tail| == 0 then [] else tail[..|tail| - 1]))
  }

  /** The basic-stat payload a server sends: MOTD, game type, map, player count and maximum,
      each NUL-terminated, then the port, the host name and a NUL. */
  function BasicStatBytes(motd: seq<byte>, gametype: seq<byte>, mapName: seq<byte>, online: int, max: int,
                          port: nat, hostname: seq<byte>): seq<byte>
    requires port < 0x1_0000
  {
    Join([motd, gametype, mapName, Decimal(online), Decimal(max), PortBytes(port) + hostname + [0]], 0)
  }

  /** `str(n)` has no NUL byte. */
  lemma DecimalHasNoNul(n: int)
    ensures 0 !in Decimal(n)
  {
    var d := Decimal(n);
    var s := FormatInt(n);
    forall i | 0 <= i < |d| ensures d[i] != 0 {
      assert Utf8.Latin1Decode(d)[i] == s[i];
      if n < 0 && i > 0 {
        assert s[i] == Digits(-n)[i - 1];
      }
    }
  }

  /** `get_status` reads back every field of the payload a server sends, whatever bytes the
      host name holds, as long as the first five fields hold no NUL; the port comes back as
      `ReportedPort`, which is the port itself only below 32768. */
  lemma BasicStatRoundTrip(motd: seq<byte>, gametype: seq<byte>, mapName: seq<byte>, online: int, max: int,
                           port: nat, hostname: seq<byte>)
    requires 0 !in motd && 0 !in gametype && 0 !in mapName && port < 0x1_0000
    ensures ParseBasicStat(BasicStatBytes(motd, gametype, mapName, online, max, port, hostname))
         == Success(BasicStatus(Utf8.Latin1Decode(motd), Utf8.Latin1Decode(gametype), Utf8.Latin1Decode(mapName),
                                Num(online), Num(max), ReportedPort(port), Utf8.Latin1Decode(hostname)))
  {
    var parts := [motd, gametype, mapName, Decimal(online), Decimal(max), PortBytes(port) + hostname + [0]];
    DecimalHasNoNul(online);
    DecimalHasNoNul(max);
    SplitMaxJoin(parts, 0, 5);
    StatusOfFields(parts, motd, gametype, mapName, online, max, port, hostname);
  }

  lemma StatusOfFields(parts: seq<seq<byte>>, motd: seq<byte>, gametype: seq<byte>, mapName: seq<byte>, online: int,
                       max: int, port: nat, hostname: seq<byte>)
    requires port < 0x1_0000
    requires parts == [motd, gametype, mapName, Decimal(online), Decimal(max), PortBytes(port) + hostname + [0]]
    ensures StatusOf(parts) == BasicStatus(Utf8.Latin1Decode(motd), Utf8.Latin1Decode(gametype), Utf8.Latin1Decode(mapName),
                                           Num(online), Num(max), ReportedPort(port), Utf8.Latin1Decode(hostname))
  {
    NumericDecimal(online);
    NumericDecimal(max);
    PortField(port, hostname);
  }

  /** `int(str(n)) == n` on the script's byte strings. */
  lemma NumericDecimal(n: int)
    ensures Numeric(Utf8.Latin1Decode(Decimal(n))) == Num(n)
  {
    ParseFormatInt(n, Py2);
  }

  lemma PortField(port: nat, hostname: seq<byte>)
    requires port < 0x1_0000
    ensures (PortBytes(port) + hostname + [0])[..2] == PortBytes(port)
    ensures (PortBytes(port) + hostname + [0])[2..] == hostname + [0]
    ensures HostPortAsWritten(PortBytes(port)) == ReportedPort(port)
  {
    HostPortAsWrittenWraps(port);
  }

  // ---------------------------------------------------------------- parse_plugins

  /** Text with no Python 2 whitespace at either end. */
  predicate Bare(s: string)
  {
    |s| > 0 ==> !IsSpace2(s[0]) && !IsSpace2(s[|s| - 1])
  }

  /** `map(lambda s: s.strip(), pieces)`. */
  function StripEach(pieces: seq<string>): (r: seq<string>)
    ensures |r| == |pieces| && forall i :: 0 <= i < |r| ==> r[i] == Strip(pieces[i], IsSpace2)
  {
    seq(|pieces|, i requires 0 <= i < |pieces| => Strip(pieces[i], IsSpace2))
  }

  /** `parse_plugins(raw)`: the server software is the text before the first colon, stripped;
      the plugins are the semicolon-separated pieces after it, each stripped, and there are
      none when the text has no colon. */
  function ParsePlugins(raw: string): (r: (string, seq<string>))
    ensures ':' !in raw ==> r == (Strip(raw, IsSpace2), [])
    ensures ':' in raw ==> |r.1| >= 1
    ensures ':' !in r.0 && Bare(r.0)
    ensures forall i :: 0 <= i < |r.1| ==> ';' !in r.1[i] && Bare(r.1[i])
  {
    var parts := SplitOnce(raw, ':');
    var server := Strip(parts[0], IsSpace2);
    Stripped(parts[0], ':');
    if |parts| == 2 then
      var pieces := Split(parts[1], ';');
      var plugins := StripEach(pieces);
      forall i | 0 <= i < |plugins| ensures ';' !in plugins[i] && Bare(plugins[i]) {
        Stripped(pieces[i], ';');
      }
      (server, plugins)
    else (server, [])
  }

  /** Stripped text is bare and holds nothing the text did not. */
  lemma Stripped(s: string, x: char)
    ensures Bare(Strip(s, IsSpace2))
    ensures x !in s ==> x !in Strip(s, IsSpace2)
  {
    if x !in s {
      Querier.StripWithout(s, IsSpace2, x);
    }
  }

  /** `parse_plugins` recovers the software and the plugins from the text a server sends for
      them ("Brand: A 1.0; B 2.0", or the bare brand when there are no plugins). */
  lemma PluginsRoundTrip(brand: string, plugins: seq<string>)
    requires ':' !in brand && Bare(brand)
    requires forall i :: 0 <= i < |plugins| ==> ';' !in plugins[i] && Bare(plugins[i])
    ensures ParsePlugins(Querier.PluginsText(brand, plugins)) == (brand, plugins)
  {
    StripTrimmed(brand, IsSpace2);
    if |plugins| > 0 {
      var pieces := Querier.Spaced(plugins);
      var joined := Join(pieces, ';');
      SplitOnceAt(brand, ':', joined);
      forall i | 0 <= i < |pieces| ensures ';' !in pieces[i] {
        assert ';' !in plugins[i];
      }
      SplitJoin(pieces, ';');
      forall i | 0 <= i < |pieces| ensures Strip(pieces[i], IsSpace2) == plugins[i] {
        StripAfterSpace(' ', plugins[i], IsSpace2);
      }
      assert StripEach(pieces) == plugins;
    }
  }

  // ---------------------------------------------------------------- key/value and player sections

  /** `zip(items[::2], items[1::2])`: consecutive items paired up, a trailing odd item dropped. */
  function Pairs(items: seq<string>): (r: seq<(string, string)>)
    ensures |r| == |items| / 2
    ensures forall i :: 0 <= i < |r| ==> r[i] == (items[2 * i], items[2 * i + 1])
    decreases |items|
  {
    if |items| < 2 then []
    else
      var rest := Pairs(items[2..]);
      assert forall i :: 1 <= i < |rest| + 1 ==> items[2 * i] == items[2..][2 * (i - 1)];
      [(items[0], items[1])] + rest
  }

  /** The pairs laid out key, value, key, value. */
  function Flatten(pairs: seq<(string, string)>): (r: seq<string>)
    ensures |r| == 2 * |pairs|
  {
    if |pairs| == 0 then [] else [pairs[0].0, pairs[0].1] + Flatten(pairs[1..])
  }

  /** Pairing up the flattened pairs, with or without one stray item after them, gives the
      pairs back. */
  lemma {:induction false} PairsFlatten(pairs: seq<(string, string)>, stray: seq<string>)
    requires |stray| <= 1
    ensures Pairs(Flatten(pairs) + stray) == pairs
  {
    if |pairs| > 0 {
      var tail := Flatten(pairs[1..]) + stray;
      var f := [pairs[0].0, pairs[0].1] + tail;
      assert Flatten(pairs) + stray == f;
      assert f[2..] == tail;
      PairsFlatten(pairs[1..], stray);
      assert Pairs(f) == [pairs[0]] + pairs[1..];
    }
  }

  const Nul: char := 0 as char

  /** The player section without its two terminating NULs (`players[:-2]`), split at NULs;
      no players when nothing is left. */
  function PlayerNames(section: string): (r: seq<string>)
    ensures forall i :: 0 <= i < |r| ==> Nul !in r[i]
    ensures |section| <= 2 ==> r == []
  {
    var players := if |section| >= 2 then section[..|section| - 2] else [];
    if players == [] then [] else Split(players, Nul)
  }

  /** The player section a server sends: each name NUL-terminated, then one more NUL. */
  function NamesText(names: seq<string>): string
  {
    (if names == [] then [] else Join(names, Nul)) + [Nul, Nul]
  }

  /** The names a server sends are read back, unless the only name is empty, which reads as no
      players at all. */
  lemma PlayersRoundTrip(names: seq<string>)
    requires forall i :: 0 <= i < |names| ==> Nul !in names[i]
    ensures names != [""] ==> PlayerNames(NamesText(names)) == names
    ensures names == [""] ==> PlayerNames(NamesText(names)) == []
  {
    if names != [] {
      var t := NamesText(names);
      assert t[..|t| - 2] == Join(names, Nul);
      if names != [""] {
        SplitJoin(names, Nul);
        assert Join(names, Nul) != [] by {
          if |names| == 1 { assert names[0] != ""; }
        }
      }
    }
  }

  // ---------------------------------------------------------------- get_rules

  /** What ends the key/value section of a full-stat reply and starts the player section. */
  const PlayerMarker: string := [Nul, Nul, 1 as char] + "player_" + [Nul, Nul]

  /** `if items[:8] == 'hostname': items = 'motd' + items[8:]`: text that starts with
      "hostname" starts with "motd" instead. */
  function RenameHostname(items: string): string
  {
    if |items| >= 8 && items[..8] == "hostname" then "motd" + items[8..] else items
  }

  /** The rules without their first key renamed, as the script stores them. */
  function Renamed(pairs: seq<(string, string)>): (r: seq<(string, string)>)
    ensures |r| == |pairs|
  {
    if |pairs| == 0 then [] else [(RenameHostname(pairs[0].0), pairs[0].1)] + pairs[1..]
  }

  /** The key/value section a server sends: keys and values separated by NULs (the NUL after
      the last value belongs to the marker). */
  function ItemsText(pairs: seq<(string, string)>): string
  {
    if |pairs| == 0 then [] else Join(Flatten(pairs), Nul)
  }

  /** The keys of `raw` that `get_rules` passes through `int()`. */
  const NumericKeys: set<string> := {"numplayers", "maxplayers", "hostport"}

  /** The keys `get_rules` sets itself, over whatever the server sent under them. */
  const ComputedKeys: set<string> := {"players", "raw_plugins", "software", "plugins"}

  /** Every value as the byte string it was sent as. */
  function AsText(raw: map<string, string>): (r: map<string, PyValue>)
    ensures r.Keys == raw.Keys && forall k :: k in raw ==> r[k] == Str(raw[k])
  {
    map k | k in raw :: Str(raw[k])
  }

  /** `for key in ('numplayers', 'maxplayers', 'hostport'): try: data[key] = int(data[key])
      except: pass`. The keys are distinct, so each is converted on its own; a missing key
      (KeyError) and a text `int()` rejects (ValueError) leave the data as it is. */
  function ConvertCounts(data: map<string, PyValue>): (r: map<string, PyValue>)
    ensures r.Keys == data.Keys
  {
    map k | k in data :: if k in NumericKeys && data[k].Str? then Numeric(data[k].text) else data[k]
  }

  /** The dictionary of the key/value section with the players stored and the three counts
      converted. */
  function Converted(raw: map<string, string>, names: seq<string>): (r: map<string, PyValue>)
    ensures r.Keys == raw.Keys + {"players"}
    ensures r["players"] == List(names)
    ensures forall k :: k in raw && k != "players" ==> r[k] == if k in NumericKeys then Numeric(raw[k]) else Str(raw[k])
  {
    var data := AsText(raw)["players" := List(names)];
    assert |"players"| != |"numplayers"| && |"players"| != |"hostport"|;
    ConvertCounts(data)
  }

  /** `get_rules` from the dictionary of the key/value section on: the players are stored,
      the three counts converted, and the plugin text (a KeyError when the server sent none)
      kept raw and parsed. */
  function Assemble(raw: map<string, string>, names: seq<string>): (r: Outcome<map<string, PyValue>>)
    ensures r.Failure? <==> "plugins" !in raw
    ensures r.Failure? ==> r.error == KeyError("plugins")
    ensures r.Success? ==> r.value.Keys == raw.Keys + {"players", "raw_plugins", "software"}
  {
    if "plugins" !in raw then Failure(KeyError("plugins"))
    else
      var converted := Converted(raw, names);
      var plugins := ParsePlugins(raw["plugins"]);
      Success(converted["raw_plugins" := Str(raw["plugins"])]["software" := Str(plugins.0)]["plugins" := List(plugins.1)])
  }

  /** The values `get_rules` computes: the players, the raw plugin text, and the software and
      plugins parsed from it. */
  lemma AssembleComputed(raw: map<string, string>, names: seq<string>)
    requires "plugins" in raw
    ensures var r := Assemble(raw, names).value;
      && r["players"] == List(names)
      && r["raw_plugins"] == Str(raw["plugins"])
      && r["software"] == Str(ParsePlugins(raw["plugins"]).0)
      && r["plugins"] == List(ParsePlugins(raw["plugins"]).1)
  {
    assert "players"[2] != "plugins"[2];
  }

  /** Every other key keeps what the server sent, converted to an integer when it is one of
      the three counts and `int()` accepts it. */
  lemma AssemblePassed(raw: map<string, string>, names: seq<string>, k: string)
    requires "plugins" in raw && k in raw && k !in ComputedKeys
    ensures Assemble(raw, names).value[k] == if k in NumericKeys then Numeric(raw[k]) else Str(raw[k])
  {
  }

  /** `get_rules` on the reply's payload after its 11 bytes of padding: the text split at the
      marker into exactly two sections (ValueError otherwise), the key/value section renamed,
      split at NULs and paired up with later keys winning, then assembled with the players. */
  function ParseRules(text: string): (r: Outcome<map<string, PyValue>>)
    ensures |SplitOn(text, PlayerMarker)| != 2 <==> r == Failure(SplitArity)
    ensures r.Failure? ==> r.error == SplitArity || r.error == KeyError("plugins")
    ensures r.Success? ==> ComputedKeys <= r.value.Keys
  {
    var sections := SplitOn(text, PlayerMarker);
    if |sections| != 2 then Failure(SplitArity)
    else
      var items := Split(RenameHostname(sections[0]), Nul);
      Assemble(Querier.Collect(map[], Pairs(items)), PlayerNames(sections[1]))
  }

  /** The full-stat text a server sends after the padding. */
  function RulesText(pairs: seq<(string, string)>, names: seq<string>): string
  {
    ItemsText(pairs) + PlayerMarker + NamesText(names)
  }

  /** Text a server may send as a key, a value or a name: no NUL, and no 01 byte, which would
      let the marker start early. */
  predicate Clean(s: string)
  {
    Nul !in s && 1 as char !in s
  }

  /** `get_rules` reads back what a server sends: the dictionary of its pairs, the first key
      renamed, later keys winning, then assembled with the names. */
  lemma RulesRoundTrip(pairs: seq<(string, string)>, names: seq<string>)
    requires forall i :: 0 <= i < |pairs| ==> Clean(pairs[i].0) && Clean(pairs[i].1)
    requires forall i :: 0 <= i < |names| ==> Clean(names[i])
    requires names != [""]
    ensures ParseRules(RulesText(pairs, names)) == Assemble(Querier.Collect(map[], Renamed(pairs)), names)
  {
    SectionsSplit(pairs, names);
    ParseRulesSections(RulesText(pairs, names), ItemsText(pairs), NamesText(names));
    RenameItems(pairs);
    ItemsRoundTrip(Renamed(pairs));
    PlayersRoundTrip(names);
  }

  lemma ParseRulesSections(text: string, items: string, players: string)
    requires SplitOn(text, PlayerMarker) == [items, players]
    ensures ParseRules(text) == Assemble(Querier.Collect(map[], Pairs(Split(RenameHostname(items), Nul))), PlayerNames(players))
  {
  }

  /** A separator-joined list holds nothing its pieces do not, other than the separator. */
  lemma {:induction false} JoinWithout(parts: seq<string>, d: char, x: char)
    requires |parts| >= 1 && x != d
    requires forall i :: 0 <= i < |parts| ==> x !in parts[i]
    ensures x !in Join(parts, d)
  {
    if |parts| > 1 {
      assert x !in parts[0];
      JoinWithout(parts[1..], d, x);
    }
  }

  lemma {:induction false} FlattenClean(pairs: seq<(string, string)>)
    requires forall i :: 0 <= i < |pairs| ==> Clean(pairs[i].0) && Clean(pairs[i].1)
    ensures forall i :: 0 <= i < |Flatten(pairs)| ==> Clean(Flatten(pairs)[i])
  {
    if |pairs| > 0 {
      FlattenClean(pairs[1..]);
      assert Clean(pairs[0].0) && Clean(pairs[0].1);
    }
  }

  /** Joined clean text holds no 01 byte. */
  lemma JoinedHasNoOne(parts: seq<string>)
    requires |parts| >= 1 && forall i :: 0 <= i < |parts| ==> Clean(parts[i])
    ensures 1 as char !in Join(parts, Nul)
  {
    JoinWithout(parts, Nul, 1 as char);
  }

  lemma ItemsHaveNoOne(pairs: seq<(string, string)>)
    requires forall i :: 0 <= i < |pairs| ==> Clean(pairs[i].0) && Clean(pairs[i].1)
    ensures 1 as char !in ItemsText(pairs)
  {
    if |pairs| > 0 {
      FlattenClean(pairs);
      JoinedHasNoOne(Flatten(pairs));
    }
  }

  lemma NamesHaveNoOne(names: seq<string>)
    requires forall i :: 0 <= i < |names| ==> Clean(names[i])
    ensures 1 as char !in NamesText(names)
  {
    if names != [] {
      JoinedHasNoOne(names);
    }
  }

  /** Every occurrence of the marker has a 01 byte two places in. */
  lemma MarkerHasOne(hay: string, j: nat)
    requires OccursAt(hay, PlayerMarker, j)
    ensures hay[j + 2] == 1 as char
  {
    assert hay[j..j + |PlayerMarker|][2] == PlayerMarker[2];
  }

  /** The marker first occurs where the server put it. */
  lemma SectionsSplit(pairs: seq<(string, string)>, names: seq<string>)
    requires forall i :: 0 <= i < |pairs| ==> Clean(pairs[i].0) && Clean(pairs[i].1)
    requires forall i :: 0 <= i < |names| ==> Clean(names[i])
    ensures SplitOn(RulesText(pairs, names), PlayerMarker) == [ItemsText(pairs), NamesText(names)]
  {
    var items := ItemsText(pairs);
    var t := NamesText(names);
    var hay := items + PlayerMarker + t;
    ItemsHaveNoOne(pairs);
    NamesHaveNoOne(names);
    forall j | 0 <= j < |items| ensures !OccursAt(hay, PlayerMarker, j) {
      if OccursAt(hay, PlayerMarker, j) {
        MarkerHasOne(hay, j);
      }
    }
    forall j | 0 <= j <= |t| ensures !OccursAt(t, PlayerMarker, j) {
      if OccursAt(t, PlayerMarker, j) {
        MarkerHasOne(t, j);
      }
    }
    SplitOnOnce(items, PlayerMarker, t);
  }

  /** Renaming the start of the section renames the first key, since keys hold no NUL. */
  lemma RenameFirst(k: string, t: string)
    requires Nul !in k
    ensures RenameHostname(k + [Nul] + t) == RenameHostname(k) + [Nul] + t
  {
    var s := k + [Nul] + t;
    if |k| >= 8 {
      assert s[..8] == k[..8];
      if k[..8] == "hostname" {
        calc {
          RenameHostname(s);
          "motd" + s[8..];
          { assert s[8..] == k[8..] + [Nul] + t; }
          "motd" + (k[8..] + [Nul] + t);
          ("motd" + k[8..]) + [Nul] + t;
        }
      }
    } else if |s| >= 8 {
      assert s[..8][|k|] == Nul != "hostname"[|k|];
    }
  }

  lemma RenameItems(pairs: seq<(string, string)>)
    requires forall i :: 0 <= i < |pairs| ==> Clean(pairs[i].0) && Clean(pairs[i].1)
    ensures RenameHostname(ItemsText(pairs)) == ItemsText(Renamed(pairs))
    ensures forall i :: 0 <= i < |Renamed(pairs)| ==> Clean(Renamed(pairs)[i].0) && Clean(Renamed(pairs)[i].1)
  {
    if |pairs| > 0 {
      var k := pairs[0].0;
      assert Clean(k);
      var rest := [pairs[0].1] + Flatten(pairs[1..]);
      assert Flatten(pairs) == [k] + rest;
      assert Flatten(Renamed(pairs)) == [RenameHostname(k)] + rest;
      RenameFirst(k, Join(rest, Nul));
      var r := Renamed(pairs);
      assert r[1..] == pairs[1..];
      assert Clean(RenameHostname(k)) by {
        if |k| >= 8 && k[..8] == "hostname" {
          assert "motd" + k[8..] == RenameHostname(k);
        }
      }
    }
  }

  /** Splitting the key/value section at NULs and pairing the pieces up gives the pairs. */
  lemma ItemsRoundTrip(pairs: seq<(string, string)>)
    requires forall i :: 0 <= i < |pairs| ==> Clean(pairs[i].0) && Clean(pairs[i].1)
    ensures Pairs(Split(ItemsText(pairs), Nul)) == pairs
  {
    if |pairs| > 0 {
      FlattenClean(pairs);
      var f := Flatten(pairs);
      forall i | 0 <= i < |f| ensures Nul !in f[i] {
        assert Clean(f[i]);
      }
      SplitJoin(f, Nul);
      PairsFlatten(pairs, []);
      assert f + [] == f;
    } else {
      assert Split([], Nul) == [[]];
    }
  }

  /** `get_rules` on a reply's payload: 11 bytes of padding (`buff[11:]`), then the text. */
  function RulesReply(payload: seq<byte>): (r: Outcome<map<string, PyValue>>)
    ensures |payload| <= 11 ==> r == Failure(SplitArity)
    ensures |payload| > 11 ==> r == ParseRules(Utf8.Latin1Decode(payload[11..]))
  {
    ParseRules(Utf8.Latin1Decode(if |payload| <= 11 then [] else payload[11..]))
  }

  // ---------------------------------------------------------------- exchanges

  /** What calls on one `MinecraftQuery` leave behind: the result, the object's state, and the
      datagrams sent, in order. The server's datagrams come in as `replies`, in order; when none
      is left, the read is a socket.timeout. */
  datatype Exchange<T> = Exchange(result: Outcome<T>, query: MinecraftQuery, sent: seq<seq<byte>>)

  /** `if not hasattr(self, 'challenge'): self.handshake()`: with no challenge set, the
      challenge request goes out and the first reply sets it. Yields the replies left. A failed
      read is the handshake's error (the script's retries are not modelled), and the object is
      left as the handshake left it. */
  function EnsureChallenge(q: MinecraftQuery, replies: seq<seq<byte>>): (r: Exchange<seq<seq<byte>>>)
    ensures q.challenge.Some? ==> r == Exchange(Success(replies), q, [])
    ensures q.challenge.None? ==> r.sent == [SendPacket(q, ChallengeType, [])]
    ensures q.challenge.None? && replies == [] ==> r.result == Failure(Timeout)
    ensures q.challenge.None? && replies != [] ==>
      r.query == Handshake(q, replies[0]).query && (r.result.Success? <==> Handshake(q, replies[0]).result.Success?)
    ensures r.result.Success? ==> r.query.challenge.Some? && r.query.id == q.id && r.query.idPacked == q.idPacked
    ensures r.result.Success? ==> r.result.value == if q.challenge.Some? then replies else replies[1..]
    ensures r.result.Success? && Valid(q) ==> Valid(r.query)
  {
    if q.challenge.Some? then Exchange(Success(replies), q, [])
    else
      var sent := [SendPacket(q, ChallengeType, [])];
      if replies == [] then Exchange(Failure(Timeout), q, sent)
      else
        var h := Handshake(q, replies[0]);
        match h.result
        case Failure(e) => Exchange(Failure(e), h.query, sent)
        case Success(_) => Exchange(Success(replies[1..]), h.query, sent)
  }

  /** A packet whose challenge field holds `c`. */
  predicate Carries(packet: seq<byte>, c: int)
  {
    |packet| >= 11 && Unpack(Int, packet[7..11]) == Success(c)
  }

  lemma SendCarries(q: MinecraftQuery, kind: byte, data: seq<byte>)
    requires Valid(q)
    ensures Carries(SendPacket(q, kind, data), ChallengeOf(q))
  {
  }

  /** The request both `get_status` and `get_rules` make: a challenge when none is set, then
      the query packet with `data`, then the reply's payload. The query packet always carries
      the challenge the handshake obtained. */
  function Ask(q: MinecraftQuery, data: seq<byte>, replies: seq<seq<byte>>): (r: Exchange<seq<byte>>)
    ensures r.result.Success? ==> r.query.challenge.Some? && r.query.id == q.id
    ensures r.result.Success? ==> |r.sent| >= 1 && r.sent[|r.sent| - 1] == SendPacket(r.query, QueryType, data)
    ensures r.result.Success? && Valid(q) ==> Carries(r.sent[|r.sent| - 1], r.query.challenge.value)
    ensures q.challenge.Some? && r.result.Success? ==> r.query == q && |r.sent| == 1
    ensures EnsureChallenge(q, replies).result.Success? ==>
      r.sent == EnsureChallenge(q, replies).sent + [SendPacket(EnsureChallenge(q, replies).query, QueryType, data)]
  {
    var c := EnsureChallenge(q, replies);
    match c.result
    case Failure(e) => Exchange(Failure(e), c.query, c.sent)
    case Success(rest) =>
      var packet := SendPacket(c.query, QueryType, data);
      assert Valid(q) ==> Carries(packet, c.query.challenge.value) by {
        if Valid(q) {
          assert Valid(c.query);
          SendCarries(c.query, QueryType, data);
        }
      }
      Exchange(QueryReply(rest), c.query, c.sent + [packet])
  }

  /** The payload of the reply to the query packet, or a timeout when none comes. */
  function QueryReply(rest: seq<seq<byte>>): Outcome<seq<byte>>
  {
    if rest == [] then Failure(Timeout)
    else
      match ReadPacket(rest[0])
      case Failure(e) => Failure(e)
      case Success(packet) => Success(packet.2)
  }

  /** `get_status()`: the query packet with no data, and the basic-stat reply parsed. */
  function GetStatus(q: MinecraftQuery, replies: seq<seq<byte>>): (r: Exchange<BasicStatus>)
    ensures r.query == Ask(q, [], replies).query && r.sent == Ask(q, [], replies).sent
    ensures Ask(q, [], replies).result.Failure? ==> r.result == Failure(Ask(q, [], replies).result.error)
    ensures Ask(q, [], replies).result.Success? ==> r.result == ParseBasicStat(Ask(q, [], replies).result.value)
  {
    var a := Ask(q, [], replies);
    match a.result
    case Failure(e) => Exchange(Failure(e), a.query, a.sent)
    case Success(payload) => Exchange(ParseBasicStat(payload), a.query, a.sent)
  }

  /** `get_rules()`: the query packet with the packed id as its data, and the full-stat reply
      parsed. */
  function GetRules(q: MinecraftQuery, replies: seq<seq<byte>>): (r: Exchange<map<string, PyValue>>)
    ensures r.query == Ask(q, q.idPacked, replies).query && r.sent == Ask(q, q.idPacked, replies).sent
    ensures Ask(q, q.idPacked, replies).result.Failure? ==> r.result == Failure(Ask(q, q.idPacked, replies).result.error)
    ensures Ask(q, q.idPacked, replies).result.Success? ==> r.result == RulesReply(Ask(q, q.idPacked, replies).result.value)
  {
    var a := Ask(q, q.idPacked, replies);
    match a.result
    case Failure(e) => Exchange(Failure(e), a.query, a.sent)
    case Success(payload) => Exchange(RulesReply(payload), a.query, a.sent)
  }

  /** A fresh query whose challenge and query are answered: two packets out, the second
      carrying the challenge the first reply set, and the second reply's payload in. */
  lemma AskAnswered(q: MinecraftQuery, data: seq<byte>, replies: seq<seq<byte>>)
    requires q.challenge.None? && |replies| == 2
    ensures Handshake(q, replies[0]).result.Success? && ReadPacket(replies[1]).Success? ==>
      Ask(q, data, replies).result == Success(ReadPacket(replies[1]).value.2) &&
      Ask(q, data, replies).query == Handshake(q, replies[0]).query
    ensures Handshake(q, replies[0]).result.Success? && ReadPacket(replies[1]).Success? ==>
      var sent := Ask(q, data, replies).sent;
      |sent| == 2 && sent[0] == SendPacket(q, ChallengeType, []) &&
      sent[1] == SendPacket(Handshake(q, replies[0]).query, QueryType, data)
  {
    if Handshake(q, replies[0]).result.Success? && ReadPacket(replies[1]).Success? {
      var rest := replies[1..];
      var c := EnsureChallenge(q, replies);
      assert c.result == Success(rest) && c.query == Handshake(q, replies[0]).query &&
             c.sent == [SendPacket(q, ChallengeType, [])] by {
        ChallengeAnswered(q, replies);
      }
      assert |rest| == 1 && rest[0] == replies[1];
      var r := Ask(q, data, replies);
      assert r.sent == c.sent + [SendPacket(c.query, QueryType, data)];
      assert r.result == Success(ReadPacket(rest[0]).value.2) && r.query == c.query;
    }
  }

  /** A fresh query sends one challenge request, and the first reply's handshake decides:
      its error, or the challenge it sets with the remaining replies kept. */
  lemma ChallengeAnswered(q: MinecraftQuery, replies: seq<seq<byte>>)
    requires q.challenge.None? && |replies| >= 1
    ensures EnsureChallenge(q, replies).sent == [SendPacket(q, ChallengeType, [])]
    ensures EnsureChallenge(q, replies).query == Handshake(q, replies[0]).query
    ensures Handshake(q, replies[0]).result.Failure? ==>
      EnsureChallenge(q, replies).result == Failure(Handshake(q, replies[0]).result.error)
    ensures Handshake(q, replies[0]).result.Success? ==>
      EnsureChallenge(q, replies).result == Success(replies[1..])
  {
  }

  /** A server's challenge reply: its type byte, the session id, the decimal challenge and a
      NUL. */
  function ChallengeReply(kind: byte, sid: int, n: int): seq<byte>
    requires Int.Fits(sid)
  {
    [kind] + Pack(Int, sid).value + Decimal(n) + [0]
  }

  /** A server reply carrying `payload`. */
  function Reply(kind: byte, sid: int, payload: seq<byte>): seq<byte>
    requires Int.Fits(sid)
  {
    [kind] + Pack(Int, sid).value + payload
  }

  /** A fresh query gets the basic status a server sends: the challenge request goes out, then
      the query packet carrying the challenge the server chose. */
  lemma GetStatusRoundTrip(q: MinecraftQuery, replies: seq<seq<byte>>, kind: byte, sid: int, n: int, motd: seq<byte>,
                           gametype: seq<byte>, mapName: seq<byte>, online: int, max: int, port: nat, hostname: seq<byte>)
    requires q.challenge.None? && Int.Fits(sid) && Int.Fits(n)
    requires 0 !in motd && 0 !in gametype && 0 !in mapName && port < 0x1_0000
    requires 5 + |BasicStatBytes(motd, gametype, mapName, online, max, port, hostname)| <= MaxDatagram
    requires |replies| == 2 && replies[0] == ChallengeReply(kind, sid, n)
    requires replies[1] == Reply(kind, sid, BasicStatBytes(motd, gametype, mapName, online, max, port, hostname))
    ensures GetStatus(q, replies).result
         == Success(BasicStatus(Utf8.Latin1Decode(motd), Utf8.Latin1Decode(gametype), Utf8.Latin1Decode(mapName),
                                Num(online), Num(max), ReportedPort(port), Utf8.Latin1Decode(hostname)))
    ensures GetStatus(q, replies).query == q.(challenge := Some(n), challengePacked := Pack(Int, n).value)
    ensures var sent := GetStatus(q, replies).sent;
      |sent| == 2 && sent[0] == SendPacket(q, ChallengeType, []) && sent[1] == SendPacket(GetStatus(q, replies).query, QueryType, [])
  {
    var payload := BasicStatBytes(motd, gametype, mapName, online, max, port, hostname);
    HandshakeRoundTrip(q, kind, sid, n, 0);
    ReadPacketRoundTrip(kind, sid, payload);
    AskAnswered(q, [], replies);
    BasicStatRoundTrip(motd, gametype, mapName, online, max, port, hostname);
  }

  /** The padding and text of a full-stat reply are parsed as the text. */
  lemma RulesReplyText(padding: seq<byte>, text: string)
    requires |padding| == 11 && Utf8.Latin1Encode(text).Success?
    ensures RulesReply(padding + Utf8.Latin1Encode(text).value) == ParseRules(text)
  {
    var bs := Utf8.Latin1Encode(text).value;
    Utf8.Latin1RoundTrip(text);
    if |bs| > 0 {
      assert (padding + bs)[11..] == bs;
    } else {
      assert Utf8.Latin1Decode([]) == text;
    }
  }

  /** A query that already holds a challenge gets the rules a server sends. */
  lemma GetRulesRoundTrip(q: MinecraftQuery, replies: seq<seq<byte>>, kind: byte, sid: int, padding: seq<byte>, pairs: seq<(string, string)>,
                          names: seq<string>)
    requires q.challenge.Some? && Int.Fits(sid) && |padding| == 11
    requires forall i :: 0 <= i < |pairs| ==> Clean(pairs[i].0) && Clean(pairs[i].1)
    requires forall i :: 0 <= i < |names| ==> Clean(names[i])
    requires names != [""]
    requires Utf8.Latin1Encode(RulesText(pairs, names)).Success?
    requires 16 + |RulesText(pairs, names)| <= MaxDatagram
    requires |replies| == 1 && replies[0] == Reply(kind, sid, padding + Utf8.Latin1Encode(RulesText(pairs, names)).value)
    ensures GetRules(q, replies).result == Assemble(Querier.Collect(map[], Renamed(pairs)), names)
    ensures GetRules(q, replies).query == q
    ensures GetRules(q, replies).sent == [SendPacket(q, QueryType, q.idPacked)]
  {
    var payload := padding + Utf8.Latin1Encode(RulesText(pairs, names)).value;
    ReadPacketRoundTrip(kind, sid, payload);
    RulesReplyText(padding, RulesText(pairs, names));
    RulesRoundTrip(pairs, names);
  }
}
