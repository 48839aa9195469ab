/** Concrete packets and responses of the Query protocol, matching
    mcstatus/tests/test_querier.py. */
module QuerierVectors {
  import opened Wrappers
  import opened Bytes
  import opened Text
  import opened Protocol
  import opened Querier

  lemma ZeroInt()
    ensures Pack(Int, 0) == Success(ZeroWord)
  {
    Pow256Four();
    assert EncodeBE(0, 4) == ZeroWord by {
      assert EncodeBE(0, 2) == [0, 0];
      assert EncodeBE(0, 3) == [0, 0, 0];
    }
  }

  /** A new querier's challenge request is FE FD 09 followed by eight zero bytes. */
  lemma ChallengeRequestVector()
    ensures CreatePacket(NewQuerier, ChallengeType)
         == Success([0xFE, 0xFD, 0x09, 0x00, 0x00, 0x00, 0x00, 0x00, 0x00, 0x00, 0x00])
  {
    FreshPacket(ChallengeType);
    assert Magic + [0x09] + ZeroWord + ZeroWord == [0xFE, 0xFD, 0x09, 0x00, 0x00, 0x00, 0x00, 0x00, 0x00, 0x00, 0x00];
  }

  /** A new querier's packets carry challenge 0. */
  lemma FreshPacket(id: byte)
    ensures CreatePacket(NewQuerier, id) == Success(Magic + [id] + ZeroWord + ZeroWord)
  {
    ZeroInt();
    ZeroWordPacked();
  }

  /** A new querier's full-stat request is FE FD 00 followed by twelve zero bytes. */
  lemma QueryRequestVector()
    ensures QueryRequest(NewQuerier)
         == Success([0xFE, 0xFD, 0x00, 0x00, 0x00, 0x00, 0x00, 0x00, 0x00, 0x00, 0x00, 0x00, 0x00, 0x00, 0x00])
  {
    ZeroWordPacked();
    FreshPacket(QueryType);
    var packet: seq<byte> := [0xFE, 0xFD, 0x00, 0x00, 0x00, 0x00, 0x00, 0x00, 0x00, 0x00, 0x00];
    assert Magic + [0x00] + ZeroWord + ZeroWord == packet;
    assert packet + ZeroWord == [0xFE, 0xFD, 0x00, 0x00, 0x00, 0x00, 0x00, 0x00, 0x00, 0x00, 0x00, 0x00, 0x00, 0x00, 0x00];
  }

  const TokenText: seq<byte> := [0x35, 0x37, 0x30, 0x33, 0x35, 0x30, 0x37, 0x37, 0x38, 0x00]

  /** One more decimal digit: `str(n)` is `str(n // 10)` followed by the last digit. */
  lemma DigitsAppend(n: nat, s: string, c: char)
    requires n >= 10 && Digits(n / 10) == s && c as int == '0' as int + n % 10
    ensures Digits(n) == s + [c]
  {
  }

  lemma TokenDigits()
    ensures FormatInt(570350778) == "570350778"
    ensures AsciiFrame("570350778") == Success(TokenText)
  {
    DigitsAppend(57, "5", '7');
    DigitsAppend(570, "57", '0');
    DigitsAppend(5703, "570", '3');
    DigitsAppend(57035, "5703", '5');
    DigitsAppend(570350, "57035", '0');
    DigitsAppend(5703507, "570350", '7');
    DigitsAppend(57035077, "5703507", '7');
    DigitsAppend(570350778, "57035077", '8');
    AsciiFrameBytes("570350778", TokenText);
  }

  const ReplyHeader: seq<byte> := [0x09, 0x00, 0x00, 0x00, 0x00]
  const ChallengeRequest: seq<byte> := [0xFE, 0xFD, 0x09, 0x00, 0x00, 0x00, 0x00, 0x00, 0x00, 0x00, 0x00]

  /** The reply 09 00 00 00 00 "570350778" 00 sets the challenge to 570350778, after the
      request FE FD 09 and eight zero bytes. */
  lemma HandshakeVector()
    ensures Handshake(NewQuerier, Connection([], ReplyHeader + TokenText))
         == Step(Success(ServerQuerier(570350778)), Connection(ChallengeRequest, []))
  {
    TokenDigits();
    ChallengeRequestVector();
    HandshakeRoundTrip(NewQuerier, [], ReplyHeader, 570350778, []);
    EmptyEnds(ReplyHeader + TokenText, ChallengeRequest);
  }

  lemma EmptyEnds(a: seq<byte>, b: seq<byte>)
    ensures a + [] == a && [] + b == b
  {
  }

  /** An empty plugin text is the vanilla server. */
  lemma VanillaVector()
    ensures ParseSoftware("1.8", "") == Software("1.8", "vanilla", [])
  {
  }

  /** "A modded server: Foo 1.0; Bar 2.0; Baz 3.0" is brand "A modded server" with three
      plugins. */
  lemma ModdedVector()
    ensures ParseSoftware("1.8", "A modded server: Foo 1.0; Bar 2.0; Baz 3.0")
         == Software("1.8", "A modded server", ["Foo 1.0", "Bar 2.0", "Baz 3.0"])
  {
    var plugins := ["Foo 1.0", "Bar 2.0", "Baz 3.0"];
    ModdedText();
    assert forall i :: 0 <= i < |plugins| ==> ';' !in plugins[i] && Trimmed(plugins[i]);
    SoftwareRoundTrip("1.8", "A modded server", plugins);
  }

  lemma ModdedText()
    ensures PluginsText("A modded server", ["Foo 1.0", "Bar 2.0", "Baz 3.0"])
         == "A modded server: Foo 1.0; Bar 2.0; Baz 3.0"
  {
    SpacedVector();
    PiecesJoin();
  }

  lemma SpacedVector()
    ensures Spaced(["Foo 1.0", "Bar 2.0", "Baz 3.0"]) == [" Foo 1.0", " Bar 2.0", " Baz 3.0"]
  {
    var pieces := Spaced(["Foo 1.0", "Bar 2.0", "Baz 3.0"]);
    assert pieces[0] == " Foo 1.0" && pieces[1] == " Bar 2.0" && pieces[2] == " Baz 3.0";
  }

  lemma PiecesJoin()
    ensures Join([" Foo 1.0", " Bar 2.0", " Baz 3.0"], ';') == " Foo 1.0; Bar 2.0; Baz 3.0"
  {
    var pieces := [" Foo 1.0", " Bar 2.0", " Baz 3.0"];
    assert Join(pieces[2..], ';') == " Baz 3.0";
    assert Join(pieces[1..], ';') == " Bar 2.0; Baz 3.0";
  }

  /** The raw fields of the sample full-stat reply. */
  const SampleRaw: map<string, string> := map[
    "hostname" := "A Minecraft Server", "gametype" := "SMP", "game_id" := "MINECRAFT",
    "version" := "1.8", "plugins" := "", "map" := "world", "numplayers" := "3",
    "maxplayers" := "20", "hostport" := "25565", "hostip" := "192.168.56.1"]

  const SampleNames: seq<string> := ["Dinnerbone", "Djinnibone", "Steve"]

  /** The sample fields give motd "A Minecraft Server", map "world", 3 of 20 players online
      and a vanilla 1.8 server. */
  lemma ResponseVector()
    ensures MakeResponse(SampleRaw, SampleNames)
         == Success(QueryResponse(SampleRaw, "A Minecraft Server", "world", QueryPlayers(3, 20, SampleNames),
                                  Software("1.8", "vanilla", [])))
  {
    assert FormatInt(3) == "3";
    assert FormatInt(20) == "20" by { assert Digits(2) == "2"; }
    ParseFormatInt(3, Py3);
    ParseFormatInt(20, Py3);
    SampleLookups();
  }

  lemma SampleLookups()
    ensures "hostname" in SampleRaw && SampleRaw["hostname"] == "A Minecraft Server"
    ensures "map" in SampleRaw && SampleRaw["map"] == "world"
    ensures "numplayers" in SampleRaw && SampleRaw["numplayers"] == "3"
    ensures "maxplayers" in SampleRaw && SampleRaw["maxplayers"] == "20"
    ensures "version" in SampleRaw && SampleRaw["version"] == "1.8"
    ensures "plugins" in SampleRaw && SampleRaw["plugins"] == ""
  {
  }
}
