/** The Query protocol client of mcstatus/querier.py: the challenge handshake, the full-stat
    request, the parse of its reply into key/value pairs and player names, and the
    `QueryResponse` built from them.

    The querier's only state is the challenge token; an operation that changes it returns the
    new querier. The UDP connection is the in-memory `Connection`, holding one datagram in
    `received`. */
module Querier {
  import opened Wrappers
  import opened Bytes
  import opened Text
  import opened Protocol
  import Utf8

  const Magic: seq<byte> := [0xFE, 0xFD]
  const ChallengeType: byte := 9
  const QueryType: byte := 0

  /** A `ServerQuerier`: the challenge token sent with every request. */
  datatype ServerQuerier = ServerQuerier(challenge: int)

  /** A new querier starts with challenge 0. */
  const NewQuerier := ServerQuerier(0)

  /** Four zero bytes: session id 0 as `I`, and the padding of the full-stat request. */
  const ZeroWord: seq<byte> := [0, 0, 0, 0]

  lemma ZeroWordPacked()
    ensures Pack(UInt, 0) == Success(ZeroWord)
  {
    Pow256Four();
    assert EncodeBE(0, 4) == ZeroWord by {
      assert EncodeBE(0, 2) == [0, 0];
      assert EncodeBE(0, 3) == [0, 0, 0];
    }
  }

  // ---------------------------------------------------------------- packets

  /** `_create_packet(id)`: magic FE FD, the type byte, session id 0, then the challenge as a
      signed 32-bit integer, which `struct` refuses (StructError) when it does not fit. */
  function CreatePacket(q: ServerQuerier, id: byte): (r: Outcome<seq<byte>>)
    ensures r.Success? <==> Int.Fits(q.challenge)
    ensures r.Failure? ==> r.error == StructError
    ensures r.Success? ==>
      (|r.value| == 11 && r.value[..2] == Magic && r.value[2] == id
       && r.value[3..7] == ZeroWord && Unpack(Int, r.value[7..]) == Success(q.challenge))
  {
    ZeroWordPacked();
    var challenge :- Pack(Int, q.challenge);
    var packet := Magic + [id] + Pack(UInt, 0).value + challenge;
    assert packet[7..] == challenge;
    Success(packet)
  }

  /** `_read_packet()`: the whole datagram is taken off the connection; its first five bytes
      (type and session id) are dropped and the rest is returned as a fresh connection. */
  function ReadPacket(c: Connection): (r: (Connection, Connection))
    ensures r.1 == Connection(c.sent, [])
    ensures r.0.sent == []
    ensures |c.received| >= 5 ==> r.0.received == c.received[5..]
    ensures |c.received| < 5 ==> r.0.received == []
  {
    var (datagram, c') := Read(c, Remaining(c));
    var packet := Receive(Fresh, datagram);
    (Read(packet, 1 + 4).1, c')
  }

  /** The five header bytes are all `_read_packet` drops. */
  lemma ReadPacketAfterHeader(sent: seq<byte>, header: seq<byte>, body: seq<byte>)
    requires |header| == 5
    ensures ReadPacket(Connection(sent, header + body)) == (Connection([], body), Connection(sent, []))
  {
    assert (header + body)[5..] == body;
  }

  // ---------------------------------------------------------------- handshake

  /** `handshake()`: send a challenge request, then read the token as NUL-terminated decimal
      text. A reply that is not an integer is a ValueError; the token is not range-checked
      here, so an out-of-range one only fails at the next `_create_packet`. */
  function Handshake(q: ServerQuerier, c: Connection): (r: Step<ServerQuerier>)
    ensures CreatePacket(q, ChallengeType).Failure? ==> r == Step(Failure(StructError), c)
    ensures CreatePacket(q, ChallengeType).Success? ==>
      r.conn == Connection(c.sent + CreatePacket(q, ChallengeType).value, [])
    ensures r.result.Success? ==>
      (|c.received| > 5 && ReadAscii(Connection([], c.received[5..])).result.Success?
       && ParseInt(ReadAscii(Connection([], c.received[5..])).result.value, Py3) == Some(r.result.value.challenge))
  {
    match CreatePacket(q, ChallengeType)
    case Failure(e) => Step(Failure(e), c)
    case Success(request) =>
      var (packet, c') := ReadPacket(Write(c, request));
      match ReadAscii(packet).result
      case Failure(e) => Step(Failure(e), c')
      case Success(text) =>
        match ParseInt(text, Py3)
        case None => Step(Failure(NotAnInteger(text)), c')
        case Some(n) => Step(Success(q.(challenge := n)), c')
  }

  /** Text `write_ascii` can frame and `read_ascii` reads back whole: Latin-1, without NUL. */
  predicate Field(s: string)
  {
    forall i :: 0 <= i < |s| ==> 0 < s[i] as int < 256
  }

  lemma FieldRoundTrip(s: string, sent: seq<byte>, rest: seq<byte>)
    requires Field(s)
    ensures AsciiFrame(s).Success?
    ensures ReadAscii(Connection(sent, AsciiFrame(s).value + rest)) == Step(Success(s), Connection(sent, rest))
  {
    assert forall i :: 0 <= i < |s| ==> s[i] != '\0';
    AsciiRoundTrip(s, sent, rest);
  }

  /** A field can be framed. */
  lemma FieldFrames(s: string)
    requires Field(s)
    ensures AsciiFrame(s).Success?
  {
    assert forall i :: 0 <= i < |s| ==> s[i] as int < 256;
  }

  /** Decimal text is a field. */
  lemma FormatIntField(n: int)
    ensures Field(FormatInt(n))
  {
    var m: nat := if n < 0 then -n else n;
    var ds := Digits(m);
    assert forall i :: 0 <= i < |ds| ==> IsDigit(ds[i]);
    if n < 0 {
      assert FormatInt(n) == "-" + ds;
      assert forall i :: 1 <= i < |FormatInt(n)| ==> FormatInt(n)[i] == ds[i - 1];
    } else {
      assert FormatInt(n) == ds;
    }
  }

  /** A reply carrying the text `text` after its five header bytes sets the challenge to
      `int(text)`, or fails with the ValueError of `int()`; either way the type-9 request has
      been written and the datagram consumed. */
  lemma HandshakeReply(q: ServerQuerier, sent: seq<byte>, header: seq<byte>, text: string, rest: seq<byte>)
    requires Int.Fits(q.challenge) && |header| == 5 && Field(text)
    ensures AsciiFrame(text).Success?
    ensures Handshake(q, Connection(sent, header + AsciiFrame(text).value + rest))
         == Step(match ParseInt(text, Py3)
                 case Some(n) => Success(ServerQuerier(n))
                 case None => Failure(NotAnInteger(text)),
                 Connection(sent + CreatePacket(q, ChallengeType).value, []))
  {
    FieldRoundTrip(text, [], rest);
    var frame := AsciiFrame(text).value;
    var c := Connection(sent, header + frame + rest);
    var request := CreatePacket(q, ChallengeType).value;
    assert ReadPacket(Write(c, request)) == (Connection([], frame + rest), Connection(sent + request, [])) by {
      assert header + frame + rest == header + (frame + rest);
      ReadPacketAfterHeader(sent + request, header, frame + rest);
    }
    assert ReadAscii(Connection([], frame + rest)).result == Success(text);
  }

  /** A server that answers with any five header bytes and the decimal token `n` gives the
      querier challenge `n`. */
  lemma HandshakeRoundTrip(q: ServerQuerier, sent: seq<byte>, header: seq<byte>, n: int, rest: seq<byte>)
    requires Int.Fits(q.challenge) && |header| == 5
    ensures AsciiFrame(FormatInt(n)).Success?
    ensures Handshake(q, Connection(sent, header + AsciiFrame(FormatInt(n)).value + rest))
         == Step(Success(ServerQuerier(n)), Connection(sent + CreatePacket(q, ChallengeType).value, []))
  {
    FormatIntField(n);
    HandshakeReply(q, sent, header, FormatInt(n), rest);
    ParseFormatInt(n, Py3);
  }

  // ---------------------------------------------------------------- full stat

  /** The full-stat request: the type-0 packet followed by four zero bytes of padding. */
  function QueryRequest(q: ServerQuerier): (r: Outcome<seq<byte>>)
    ensures r.Success? <==> Int.Fits(q.challenge)
    ensures r.Failure? ==> r.error == StructError
    ensures r.Success? ==>
      (|r.value| == 15 && r.value[..11] == CreatePacket(q, QueryType).value && r.value[11..] == ZeroWord)
  {
    ZeroWordPacked();
    var packet :- CreatePacket(q, QueryType);
    Success(packet + Pack(UInt, 0).value)
  }

  /** The key/value loop of `read_query`, with the pairs collected so far in `data`: an empty
      key ends it and the byte after it is skipped; a later duplicate key overwrites. */
  function ReadPairs(c: Connection, data: map<string, string>): (r: Step<map<string, string>>)
    ensures r.conn.sent == c.sent
    ensures r.result.Success? ==> data.Keys <= r.result.value.Keys
    decreases |c.received|
  {
    var Step(key, c1) := ReadAscii(c);
    match key
    case Failure(e) => Step(Failure(e), c1)
    case Success(k) =>
      if |k| == 0 then Step(Success(data), Read(c1, 1).1)
      else
        var Step(value, c2) := ReadAscii(c1);
        match value
        case Failure(e) => Step(Failure(e), c2)
        case Success(v) => ReadPairs(c2, data[k := v])
  }

  /** The player-name loop of `read_query`, appending to `names` until an empty name. */
  function ReadNames(c: Connection, names: seq<string>): (r: Step<seq<string>>)
    ensures r.conn.sent == c.sent
    ensures r.result.Success? ==> names <= r.result.value
    ensures r.result.Success? ==> forall i :: 0 <= i < |r.result.value| ==> |r.result.value[i]| > 0 || i < |names|
    decreases |c.received|
  {
    var Step(name, c1) := ReadAscii(c);
    match name
    case Failure(e) => Step(Failure(e), c1)
    case Success(n) =>
      if |n| == 0 then Step(Success(names), c1)
      else ReadNames(c1, names + [n])
  }

  /** The body of `read_query` after `_read_packet`: skip 11 bytes of padding, the pairs,
      skip the 9 bytes of the `player_` marker, then the names. */
  function ParseStat(response: Connection): (r: Outcome<(map<string, string>, seq<string>)>)
    ensures r.Success? ==> forall i :: 0 <= i < |r.value.1| ==> |r.value.1[i]| > 0
  {
    var pairs := ReadPairs(Read(response, 11).1, map[]);
    var data :- pairs.result;
    var names :- ReadNames(Read(pairs.conn, 9).1, []).result;
    Success((data, names))
  }

  /** The keys of a list of pairs. */
  function KeysOf(pairs: seq<(string, string)>): set<string>
    decreases |pairs|
  {
    if |pairs| == 0 then {} else {pairs[0].0} + KeysOf(pairs[1..])
  }

  /** The map `data` becomes after storing the pairs in order. */
  function Collect(data: map<string, string>, pairs: seq<(string, string)>): (r: map<string, string>)
    ensures r.Keys == data.Keys + KeysOf(pairs)
    decreases |pairs|
  {
    if |pairs| == 0 then data else Collect(data[pairs[0].0 := pairs[0].1], pairs[1..])
  }

  /** When a key occurs in the pairs, the map holds the value of its last occurrence. */
  lemma {:induction false} CollectLast(data: map<string, string>, pairs: seq<(string, string)>, i: nat)
    requires i < |pairs|
    requires forall j :: i < j < |pairs| ==> pairs[j].0 != pairs[i].0
    ensures pairs[i].0 in Collect(data, pairs) && Collect(data, pairs)[pairs[i].0] == pairs[i].1
    decreases |pairs|
  {
    var k := pairs[i].0;
    if i == 0 {
      assert forall j :: 0 <= j < |pairs[1..]| ==> pairs[1..][j].0 != k by {
        assert forall j :: 0 <= j < |pairs[1..]| ==> pairs[1..][j] == pairs[j + 1];
      }
      CollectUntouched(data[k := pairs[0].1], pairs[1..], k);
    } else {
      assert forall j :: i - 1 < j < |pairs[1..]| ==> pairs[1..][j].0 != pairs[1..][i - 1].0 by {
        assert forall j :: 0 <= j < |pairs[1..]| ==> pairs[1..][j] == pairs[j + 1];
      }
      CollectLast(data[pairs[0].0 := pairs[0].1], pairs[1..], i - 1);
    }
  }

  /** Pairs that do not mention a key leave its value as it was. */
  lemma {:induction false} CollectUntouched(data: map<string, string>, pairs: seq<(string, string)>, k: string)
    requires k in data
    requires forall j :: 0 <= j < |pairs| ==> pairs[j].0 != k
    ensures Collect(data, pairs)[k] == data[k]
    decreases |pairs|
  {
    if |pairs| > 0 {
      assert forall j :: 0 <= j < |pairs[1..]| ==> pairs[1..][j].0 != k by {
        assert forall j :: 0 <= j < |pairs[1..]| ==> pairs[1..][j] == pairs[j + 1];
      }
      CollectUntouched(data[pairs[0].0 := pairs[0].1], pairs[1..], k);
    }
  }

  /** How a server frames key/value pairs: key, 00, value, 00, for each pair. */
  function PairsBytes(pairs: seq<(string, string)>): (r: seq<byte>)
    requires forall i :: 0 <= i < |pairs| ==> Field(pairs[i].0) && Field(pairs[i].1)
  {
    if |pairs| == 0 then []
    else
      FieldFrames(pairs[0].0);
      FieldFrames(pairs[0].1);
      AsciiFrame(pairs[0].0).value + AsciiFrame(pairs[0].1).value + PairsBytes(pairs[1..])
  }

  /** How a server frames the player names: each name and 00. */
  function NamesBytes(names: seq<string>): (r: seq<byte>)
    requires forall i :: 0 <= i < |names| ==> Field(names[i])
  {
    if |names| == 0 then []
    else
      FieldFrames(names[0]);
      AsciiFrame(names[0]).value + NamesBytes(names[1..])
  }

  predicate PairsOk(pairs: seq<(string, string)>)
  {
    forall i :: 0 <= i < |pairs| ==> |pairs[i].0| > 0 && Field(pairs[i].0) && Field(pairs[i].1)
  }

  predicate NamesOk(names: seq<string>)
  {
    forall i :: 0 <= i < |names| ==> |names[i]| > 0 && Field(names[i])
  }

  /** The empty string is framed as a lone 00. */
  lemma EmptyFrame()
    ensures AsciiFrame("") == Success([0])
  {
    assert Utf8.Latin1Encode("") == Success([]);
    var none: seq<byte> := [];
    var zero: seq<byte> := [0];
    assert none + zero == zero;
  }

  /** One round of the pair loop on a framed key and value. */
  lemma ReadPairsStep(k: string, v: string, rest: seq<byte>, sent: seq<byte>, data: map<string, string>)
    requires |k| > 0 && Field(k) && Field(v)
    ensures AsciiFrame(k).Success? && AsciiFrame(v).Success?
    ensures ReadPairs(Connection(sent, AsciiFrame(k).value + (AsciiFrame(v).value + rest)), data)
         == ReadPairs(Connection(sent, rest), data[k := v])
  {
    FieldRoundTrip(k, sent, AsciiFrame(v).value + rest);
    FieldRoundTrip(v, sent, rest);
  }

  /** The empty key ends the pair loop, and the byte after it is skipped. */
  lemma ReadPairsEnd(sent: seq<byte>, skip: byte, tail: seq<byte>, data: map<string, string>)
    ensures ReadPairs(Connection(sent, [0, skip] + tail), data) == Step(Success(data), Connection(sent, tail))
  {
    EmptyFrame();
    assert [0, skip] + tail == [0] + ([skip] + tail);
    FieldRoundTrip("", sent, [skip] + tail);
    assert Read(Connection(sent, [skip] + tail), 1).1 == Connection(sent, tail);
  }

  lemma PairsBytesCons(pairs: seq<(string, string)>, more: seq<byte>)
    requires |pairs| > 0 && PairsOk(pairs)
    ensures PairsOk(pairs[1..])
    ensures AsciiFrame(pairs[0].0).Success? && AsciiFrame(pairs[0].1).Success?
    ensures PairsBytes(pairs) + more
         == AsciiFrame(pairs[0].0).value + (AsciiFrame(pairs[0].1).value + (PairsBytes(pairs[1..]) + more))
  {
    assert forall i :: 0 <= i < |pairs[1..]| ==> pairs[1..][i] == pairs[i + 1];
    FieldFrames(pairs[0].0);
    FieldFrames(pairs[0].1);
    var k := AsciiFrame(pairs[0].0).value;
    var v := AsciiFrame(pairs[0].1).value;
    var tail := PairsBytes(pairs[1..]);
    assert PairsBytes(pairs) == k + v + tail;
    Associate(k, v, tail, more);
  }

  lemma Associate(a: seq<byte>, b: seq<byte>, c: seq<byte>, d: seq<byte>)
    ensures a + b + c + d == a + (b + (c + d))
  {
  }

  /** The pair loop reads back every framed list of pairs with non-empty keys, stops at the
      empty key, skips one byte and leaves what follows. */
  lemma {:induction false} ReadPairsRoundTrip(pairs: seq<(string, string)>, data: map<string, string>, sent: seq<byte>, skip: byte, tail: seq<byte>)
    requires PairsOk(pairs)
    ensures ReadPairs(Connection(sent, PairsBytes(pairs) + ([0, skip] + tail)), data)
         == Step(Success(Collect(data, pairs)), Connection(sent, tail))
    decreases |pairs|
  {
    if |pairs| == 0 {
      assert PairsBytes(pairs) + ([0, skip] + tail) == [0, skip] + tail;
      ReadPairsEnd(sent, skip, tail, data);
    } else {
      var k, v := pairs[0].0, pairs[0].1;
      var rest := PairsBytes(pairs[1..]) + ([0, skip] + tail);
      PairsBytesCons(pairs, [0, skip] + tail);
      ReadPairsStep(k, v, rest, sent, data);
      ReadPairsRoundTrip(pairs[1..], data[k := v], sent, skip, tail);
    }
  }

  /** One round of the name loop on a framed non-empty name. */
  lemma ReadNamesStep(n: string, rest: seq<byte>, sent: seq<byte>, acc: seq<string>)
    requires |n| > 0 && Field(n)
    ensures AsciiFrame(n).Success?
    ensures ReadNames(Connection(sent, AsciiFrame(n).value + rest), acc) == ReadNames(Connection(sent, rest), acc + [n])
  {
    FieldRoundTrip(n, sent, rest);
  }

  /** The empty name ends the name loop. */
  lemma ReadNamesEnd(sent: seq<byte>, tail: seq<byte>, acc: seq<string>)
    ensures ReadNames(Connection(sent, [0] + tail), acc) == Step(Success(acc), Connection(sent, tail))
  {
    EmptyFrame();
    FieldRoundTrip("", sent, tail);
  }

  lemma NamesBytesCons(names: seq<string>, more: seq<byte>)
    requires |names| > 0 && NamesOk(names)
    ensures NamesOk(names[1..])
    ensures AsciiFrame(names[0]).Success?
    ensures NamesBytes(names) + more == AsciiFrame(names[0]).value + (NamesBytes(names[1..]) + more)
  {
    assert forall i :: 0 <= i < |names[1..]| ==> names[1..][i] == names[i + 1];
  }

  lemma AppendHead<T>(acc: seq<T>, s: seq<T>)
    requires |s| > 0
    ensures acc + [s[0]] + s[1..] == acc + s
  {
    assert s == [s[0]] + s[1..];
  }

  /** The name loop reads back every framed list of non-empty names up to the empty one. */
  lemma {:induction false} ReadNamesRoundTrip(names: seq<string>, acc: seq<string>, sent: seq<byte>, tail: seq<byte>)
    requires NamesOk(names)
    ensures ReadNames(Connection(sent, NamesBytes(names) + ([0] + tail)), acc)
         == Step(Success(acc + names), Connection(sent, tail))
    decreases |names|
  {
    if |names| == 0 {
      assert NamesBytes(names) + ([0] + tail) == [0] + tail;
      ReadNamesEnd(sent, tail, acc);
      assert acc + names == acc;
    } else {
      var rest := NamesBytes(names[1..]) + ([0] + tail);
      NamesBytesCons(names, [0] + tail);
      ReadNamesStep(names[0], rest, sent, acc);
      ReadNamesRoundTrip(names[1..], acc + [names[0]], sent, tail);
      AppendHead(acc, names);
    }
  }

  /** A full-stat reply after its five header bytes: 11 bytes of padding, the pairs, the
      empty key and one more byte, the 9-byte `player_` marker, the names, the empty name,
      and anything after it. */
  function StatBody(padding: seq<byte>, pairs: seq<(string, string)>, skip: byte, marker: seq<byte>, names: seq<string>, tail: seq<byte>): seq<byte>
    requires |padding| == 11 && |marker| == 9 && PairsOk(pairs) && NamesOk(names)
  {
    padding + (PairsBytes(pairs) + ([0, skip] + (marker + (NamesBytes(names) + ([0] + tail)))))
  }

  /** `read_query`'s parse recovers the pairs, as a map, and the names of every reply
      framed as above. */
  lemma ParseStatRoundTrip(padding: seq<byte>, pairs: seq<(string, string)>, skip: byte, marker: seq<byte>, names: seq<string>, tail: seq<byte>)
    requires |padding| == 11 && |marker| == 9 && PairsOk(pairs) && NamesOk(names)
    ensures ParseStat(Connection([], StatBody(padding, pairs, skip, marker, names, tail)))
         == Success((Collect(map[], pairs), names))
  {
    var after := marker + (NamesBytes(names) + ([0] + tail));
    var body := StatBody(padding, pairs, skip, marker, names, tail);
    assert body == padding + (PairsBytes(pairs) + ([0, skip] + after));
    var c1 := Read(Connection([], body), 11).1;
    assert c1 == Connection([], PairsBytes(pairs) + ([0, skip] + after));
    ReadPairsRoundTrip(pairs, map[], [], skip, after);
    var c2 := Read(Connection([], after), 9).1;
    assert c2 == Connection([], NamesBytes(names) + ([0] + tail));
    ReadNamesRoundTrip(names, [], [], tail);
    assert [] + names == names;
  }

  // ---------------------------------------------------------------- the response

  datatype QueryPlayers = QueryPlayers(online: int, max: int, names: seq<string>)

  /** `QueryResponse.Software`: the version, the server brand and its plugin list. */
  datatype Software = Software(version: string, brand: string, plugins: seq<string>)

  datatype QueryResponse = QueryResponse(raw: map<string, string>, motd: string, mapName: string,
                                         players: QueryPlayers, software: Software)

  /** Each piece with its surrounding whitespace removed. */
  function StripEach(pieces: seq<string>): (r: seq<string>)
    ensures |r| == |pieces| && forall i :: 0 <= i < |r| ==> r[i] == Strip(pieces[i], IsSpace3)
  {
    seq(|pieces|, i requires 0 <= i < |pieces| => Strip(pieces[i], IsSpace3))
  }

  /** `Software(version, plugins)`: an empty plugin text is "vanilla" with no plugins;
      otherwise the brand is the text before the first colon, and the plugins are the
      semicolon-separated pieces after it, each stripped. */
  function ParseSoftware(version: string, plugins: string): (r: Software)
    ensures r.version == version
    ensures plugins == [] ==> r.brand == "vanilla" && r.plugins == []
    ensures plugins != [] && ':' !in plugins ==> r.brand == Strip(plugins, IsSpace3) && r.plugins == []
    ensures plugins != [] && ':' in plugins ==> |r.plugins| >= 1
    ensures forall i :: 0 <= i < |r.plugins| ==> ';' !in r.plugins[i]
  {
    if plugins == [] then Software(version, "vanilla", [])
    else
      var parts := SplitOnce(plugins, ':');
      var brand := Strip(parts[0], IsSpace3);
      if |parts| == 2 then
        var pieces := Split(parts[1], ';');
        var r := StripEach(pieces);
        assert forall i :: 0 <= i < |r| ==> ';' !in r[i] by {
          forall i | 0 <= i < |r| ensures ';' !in r[i] {
            assert ';' !in pieces[i];
            StripWithout(pieces[i], IsSpace3, ';');
          }
        }
        Software(version, brand, r)
      else Software(version, brand, [])
  }

  /** `strip` only removes elements, so it cannot bring in one its input lacks. */
  lemma StripWithout<T>(s: seq<T>, ws: T -> bool, x: T)
    requires x !in s
    ensures x !in Strip(s, ws)
  {
    var l := LStrip(s, ws);
    assert x !in l;
  }

  predicate Trimmed(s: string)
  {
    |s| > 0 ==> !IsSpace3(s[0]) && !IsSpace3(s[|s| - 1])
  }

  /** The plugin text a server sends: the brand, then, if there are plugins, a colon and the
      plugins each after a space, separated by semicolons ("Brand: A 1.0; B 2.0"). */
  function PluginsText(brand: string, plugins: seq<string>): string
  {
    if |plugins| == 0 then brand else brand + [':'] + Join(Spaced(plugins), ';')
  }

  /** Each plugin behind one space. */
  function Spaced(plugins: seq<string>): (r: seq<string>)
    ensures |r| == |plugins| && forall i :: 0 <= i < |r| ==> r[i] == [' '] + plugins[i]
  {
    seq(|plugins|, i requires 0 <= i < |plugins| => [' '] + plugins[i])
  }

  /** `Software` recovers the brand and the plugins from their plugin text when the brand has
      no colon, nothing has stray whitespace and no plugin holds a semicolon. */
  lemma SoftwareRoundTrip(version: string, brand: string, plugins: seq<string>)
    requires ':' !in brand && Trimmed(brand) && (|plugins| == 0 ==> brand != [])
    requires forall i :: 0 <= i < |plugins| ==> ';' !in plugins[i] && Trimmed(plugins[i])
    ensures ParseSoftware(version, PluginsText(brand, plugins)) == Software(version, brand, plugins)
  {
    StripTrimmed(brand, IsSpace3);
    if |plugins| > 0 {
      var pieces := Spaced(plugins);
      var joined := Join(pieces, ';');
      SplitOnceAt(brand, ':', joined);
      forall i | 0 <= i < |pieces| ensures ';' !in pieces[i] {
        assert ';' !in plugins[i];
      }
      SplitJoin(pieces, ';');
      StripSpaced(plugins);
      ParseSoftwareSplit(version, brand + [':'] + joined, brand, joined);
    }
  }

  /** `Software` on a text with a colon, once the text is split at it. */
  lemma ParseSoftwareSplit(version: string, text: string, brand: string, rest: string)
    requires text != [] && SplitOnce(text, ':') == [brand, rest]
    ensures ParseSoftware(version, text) == Software(version, Strip(brand, IsSpace3), StripEach(Split(rest, ';')))
  {
  }

  /** Stripping each spaced plugin gives the plugins back. */
  lemma StripSpaced(plugins: seq<string>)
    requires forall i :: 0 <= i < |plugins| ==> Trimmed(plugins[i])
    ensures StripEach(Spaced(plugins)) == plugins
  {
    var pieces := Spaced(plugins);
    forall i | 0 <= i < |pieces| ensures Strip(pieces[i], IsSpace3) == plugins[i] {
      StripAfterSpace(' ', plugins[i], IsSpace3);
    }
  }

  /** The keys `QueryResponse` reads, in the order it reads them. */
  const RequiredKeys: seq<string> := ["hostname", "map", "numplayers", "maxplayers", "version", "plugins"]

  /** The reference condition for a successful `QueryResponse`: all six keys present and both
      player counts integers. */
  predicate WellFormedStat(raw: map<string, string>)
  {
    && "hostname" in raw && "map" in raw && "numplayers" in raw && "maxplayers" in raw
    && "version" in raw && "plugins" in raw
    && ParseInt(raw["numplayers"], Py3).Some?
    && ParseInt(raw["maxplayers"], Py3).Some?
  }

  /** `QueryResponse(raw, players)`: a KeyError for the first of hostname, map, numplayers,
      maxplayers missing; then a ValueError if a count is not an integer (online first);
      then a KeyError for version or plugins. */
  function MakeResponse(raw: map<string, string>, names: seq<string>): (r: Outcome<QueryResponse>)
    ensures r.Success? <==> WellFormedStat(raw)
    ensures r.Success? ==> r.value == QueryResponse(raw, raw["hostname"], raw["map"],
      QueryPlayers(ParseInt(raw["numplayers"], Py3).value, ParseInt(raw["maxplayers"], Py3).value, names),
      ParseSoftware(raw["version"], raw["plugins"]))
    ensures r.Failure? ==> r.error.KeyError? || r.error.NotAnInteger?
    ensures r.Failure? && r.error.KeyError? ==> r.error.key in RequiredKeys && r.error.key !in raw
    ensures r.Failure? && r.error.NotAnInteger? ==>
      ("numplayers" in raw && "maxplayers" in raw
       && ((ParseInt(raw["numplayers"], Py3) == None && r.error.text == raw["numplayers"])
           || (ParseInt(raw["maxplayers"], Py3) == None && r.error.text == raw["maxplayers"])))
  {
    if "hostname" !in raw then Failure(KeyError("hostname"))
    else if "map" !in raw then Failure(KeyError("map"))
    else if "numplayers" !in raw then Failure(KeyError("numplayers"))
    else if "maxplayers" !in raw then Failure(KeyError("maxplayers"))
    else
      match ParseInt(raw["numplayers"], Py3)
      case None => Failure(NotAnInteger(raw["numplayers"]))
      case Some(online) =>
        match ParseInt(raw["maxplayers"], Py3)
        case None => Failure(NotAnInteger(raw["maxplayers"]))
        case Some(max) =>
          if "version" !in raw then Failure(KeyError("version"))
          else if "plugins" !in raw then Failure(KeyError("plugins"))
          else
            Success(QueryResponse(raw, raw["hostname"], raw["map"], QueryPlayers(online, max, names),
                                  ParseSoftware(raw["version"], raw["plugins"])))
  }

  /** The six keys with the player counts written as decimal text, as a server sends them. */
  function StatFields(motd: string, mapName: string, online: int, max: int, version: string, plugins: string): map<string, string>
  {
    map["hostname" := motd, "map" := mapName, "numplayers" := FormatInt(online),
        "maxplayers" := FormatInt(max), "version" := version, "plugins" := plugins]
  }

  /** A raw map holding those six keys, plus anything else, yields exactly the fields put
      into it. */
  lemma MakeResponseRoundTrip(extra: map<string, string>, motd: string, mapName: string, online: int, max: int,
                              version: string, plugins: string, names: seq<string>)
    ensures var raw := extra + StatFields(motd, mapName, online, max, version, plugins);
      MakeResponse(raw, names) == Success(QueryResponse(raw, motd, mapName, QueryPlayers(online, max, names),
                                                         ParseSoftware(version, plugins)))
  {
    var raw := extra + StatFields(motd, mapName, online, max, version, plugins);
    assert raw["hostname"] == motd && raw["map"] == mapName;
    assert raw["numplayers"] == FormatInt(online) && raw["maxplayers"] == FormatInt(max);
    assert raw["version"] == version && raw["plugins"] == plugins;
    ParseFormatInt(online, Py3);
    ParseFormatInt(max, Py3);
  }

  /** `read_query()`: send the full-stat request, take the datagram and parse it. The
      connection is left with nothing queued inbound whatever the outcome. */
  function ReadQuery(q: ServerQuerier, c: Connection): (r: Step<QueryResponse>)
    ensures QueryRequest(q).Failure? ==> r == Step(Failure(StructError), c)
    ensures QueryRequest(q).Success? ==> r.conn == Connection(c.sent + QueryRequest(q).value, [])
    ensures r.result.Success? ==>
      (|c.received| >= 5 && ParseStat(Connection([], c.received[5..])).Success?
       && r.result == MakeResponse(ParseStat(Connection([], c.received[5..])).value.0,
                                   ParseStat(Connection([], c.received[5..])).value.1))
  {
    match QueryRequest(q)
    case Failure(e) => Step(Failure(e), c)
    case Success(request) =>
      var (response, c') := ReadPacket(Write(c, request));
      match ParseStat(response)
      case Failure(e) => Step(Failure(e), c')
      case Success((data, names)) => Step(MakeResponse(data, names), c')
  }

  /** End to end: a full-stat datagram built from pairs and names gives the response
      `QueryResponse` builds from the collected pairs and those names. */
  lemma ReadQueryRoundTrip(q: ServerQuerier, sent: seq<byte>, header: seq<byte>, padding: seq<byte>,
                           pairs: seq<(string, string)>, skip: byte, marker: seq<byte>, names: seq<string>, tail: seq<byte>)
    requires Int.Fits(q.challenge) && |header| == 5
    requires |padding| == 11 && |marker| == 9 && PairsOk(pairs) && NamesOk(names)
    ensures ReadQuery(q, Connection(sent, header + StatBody(padding, pairs, skip, marker, names, tail)))
         == Step(MakeResponse(Collect(map[], pairs), names), Connection(sent + QueryRequest(q).value, []))
  {
    var body := StatBody(padding, pairs, skip, marker, names, tail);
    ReadPacketAfterHeader(sent + QueryRequest(q).value, header, body);
    ParseStatRoundTrip(padding, pairs, skip, marker, names, tail);
  }
}
