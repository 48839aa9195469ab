/** The Bedrock status reply of mcstatus/tests/test_bedrock_status.py. */
module BedrockVectors {
  import opened Wrappers
  import opened Bytes
  import opened Text
  import opened Protocol
  import opened Bedrock
  import Utf8

  /** Time stamp 0, server GUID 34 47 54 00 B8 83 44 DE, then the RakNet magic. */
  const SampleHeader: seq<byte> := [0x00, 0x00, 0x00, 0x00, 0x00, 0x00, 0x00, 0x00, 0x34, 0x47, 0x54, 0x00, 0xB8, 0x83, 0x44, 0xDE, 0x00, 0xFF, 0xFF, 0x00, 0xFE, 0xFE, 0xFE, 0xFE, 0xFD, 0xFD, 0xFD, 0xFD, 0x12, 0x34, 0x56, 0x78]

  /** A reset code, a colour code and one letter: `§r§` x y. */
  function Piece(x: char, y: char): string { "§r§" + [x, y] }

  /** The sample's message of the day, nine colour-coded letters spelling "GayBowser". */
  const Motd: string := Piece('4', 'G') + Piece('6', 'a') + Piece('e', 'y') + Piece('2', 'B') + Piece('1', 'o') + Piece('9', 'w') + Piece('d', 's') + Piece('4', 'e') + Piece('6', 'r')

  /** The thirteen fields of the sample's server-id string. */
  const SampleFields: seq<string> :=
    ["MCPE", Motd, "422", "", "1", "69", "3767071975391053022", "", "Default", "1", "19132", "-1", ""]

  lemma ColourPiece(x: char, y: char)
    requires x as int < 0x80 && y as int < 0x80
    ensures Utf8.Encode(Piece(x, y)) == [0xC2, 0xA7, 0x72, 0xC2, 0xA7, x as int as byte, y as int as byte]
  {
    Utf8.EncodeAppend("§r§", [x, y]);
    assert Utf8.Encode("§r§") == [0xC2, 0xA7, 0x72, 0xC2, 0xA7] by {
      assert Utf8.EncodeChar('§') == [0xC2, 0xA7];
      assert Utf8.Encode("§") == [0xC2, 0xA7];
      assert Utf8.Encode("r§") == [0x72, 0xC2, 0xA7];
    }
    assert Utf8.IsAscii([x, y]);
    Utf8.EncodeAscii([x, y]);
  }

  /** Each colour-coded letter takes seven bytes: 45 characters, 63 bytes. */
  lemma MotdEncoded()
    ensures |Motd| == 45 && |Utf8.Encode(Motd)| == 63
  {
    ColourPiece('4', 'G');
    var s0 := Piece('4', 'G');
    ColourPiece('6', 'a');
    var s1 := s0 + Piece('6', 'a');
    Utf8.EncodeAppend(s0, Piece('6', 'a'));
    ColourPiece('e', 'y');
    var s2 := s1 + Piece('e', 'y');
    Utf8.EncodeAppend(s1, Piece('e', 'y'));
    ColourPiece('2', 'B');
    var s3 := s2 + Piece('2', 'B');
    Utf8.EncodeAppend(s2, Piece('2', 'B'));
    ColourPiece('1', 'o');
    var s4 := s3 + Piece('1', 'o');
    Utf8.EncodeAppend(s3, Piece('1', 'o'));
    ColourPiece('9', 'w');
    var s5 := s4 + Piece('9', 'w');
    Utf8.EncodeAppend(s4, Piece('9', 'w'));
    ColourPiece('d', 's');
    var s6 := s5 + Piece('d', 's');
    Utf8.EncodeAppend(s5, Piece('d', 's'));
    ColourPiece('4', 'e');
    var s7 := s6 + Piece('4', 'e');
    Utf8.EncodeAppend(s6, Piece('4', 'e'));
    ColourPiece('6', 'r');
    var s8 := s7 + Piece('6', 'r');
    Utf8.EncodeAppend(s7, Piece('6', 'r'));
  }

  /** The UTF-8 length of a join grows by one byte per separator. */
  lemma JoinStep(parts: seq<string>)
    requires |parts| > 1
    ensures |Utf8.Encode(Join(parts, ';'))| == |Utf8.Encode(parts[0])| + 1 + |Utf8.Encode(Join(parts[1..], ';'))|
  {
    Utf8.EncodeAppend(parts[0] + [';'], Join(parts[1..], ';'));
    Utf8.EncodeAppend(parts[0], [';']);
  }

  lemma AsciiLength(s: string)
    requires Utf8.IsAscii(s)
    ensures |Utf8.Encode(s)| == |s|
  {
    Utf8.EncodeAscii(s);
  }

  lemma GuidLength()
    ensures |Utf8.Encode("3767071975391053022")| == 19
  {
    AsciiLength("3767071975391053022");
  }

  lemma FieldLengths()
    ensures |Utf8.Encode("MCPE")| == 4
    ensures |Utf8.Encode("422")| == 3
    ensures |Utf8.Encode("1")| == 1
    ensures |Utf8.Encode("69")| == 2
    ensures |Utf8.Encode("Default")| == 7
    ensures |Utf8.Encode("19132")| == 5
    ensures |Utf8.Encode("-1")| == 2
  {
  }

  /** The last seven fields join to 40 bytes. */
  lemma TailLength()
    ensures |Utf8.Encode(Join(["3767071975391053022", "", "Default", "1", "19132", "-1", ""], ';'))| == 40
  {
    FieldLengths();
    GuidLength();
    JoinStep(["-1", ""]);
    JoinStep(["19132", "-1", ""]);
    JoinStep(["1", "19132", "-1", ""]);
    JoinStep(["Default", "1", "19132", "-1", ""]);
    JoinStep(["", "Default", "1", "19132", "-1", ""]);
    JoinStep(["3767071975391053022", "", "Default", "1", "19132", "-1", ""]);
  }

  /** The last eleven fields join to 50 bytes. */
  lemma MiddleLength()
    ensures |Utf8.Encode(Join(["422", "", "1", "69", "3767071975391053022", "", "Default", "1", "19132", "-1", ""], ';'))| == 50
  {
    TailLength();
    FieldLengths();
    JoinStep(["69", "3767071975391053022", "", "Default", "1", "19132", "-1", ""]);
    JoinStep(["1", "69", "3767071975391053022", "", "Default", "1", "19132", "-1", ""]);
    JoinStep(["", "1", "69", "3767071975391053022", "", "Default", "1", "19132", "-1", ""]);
    JoinStep(["422", "", "1", "69", "3767071975391053022", "", "Default", "1", "19132", "-1", ""]);
  }

  /** The sample's server-id string is 119 bytes long, the 00 77 of its length field. */
  lemma SampleLength()
    ensures |Utf8.Encode(Join(SampleFields, ';'))| == 119
  {
    MotdEncoded();
    MiddleLength();
    assert |Utf8.Encode("MCPE")| == 4;
    JoinStep([Motd, "422", "", "1", "69", "3767071975391053022", "", "Default", "1", "19132", "-1", ""]);
    JoinStep(["MCPE", Motd, "422", "", "1", "69", "3767071975391053022", "", "Default", "1", "19132", "-1", ""]);
  }

  lemma SampleSeparators()
    ensures forall i :: 0 <= i < |SampleFields| ==> ';' !in SampleFields[i]
  {
    assert ';' !in Motd;
  }

  lemma LengthBytes()
    ensures Pack(UShort, 119) == Success([0x00, 0x77])
  {
    assert Pow256(2) == 0x1_0000;
    assert EncodeBE(119, 2) == [0x00, 0x77] by { assert EncodeBE(0, 1) == [0x00]; }
  }

  /** The sample pong, with length field 00 77, parses to brand MCPE, protocol "422", 1 of
      69 players, the colour-coded motd, map "" and game mode "Default". */
  lemma SampleVector()
    ensures UnconnectedPong(0x1C, SampleHeader, SampleFields).Success?
    ensures UnconnectedPong(0x1C, SampleHeader, SampleFields).value[..35] == [0x1C] + SampleHeader + [0x00, 0x77]
    ensures ParseResponse(UnconnectedPong(0x1C, SampleHeader, SampleFields).value, 1.0)
         == Success(BedrockStatusResponse(Version("422", "MCPE"), 1.0, "1", "69", Motd, Some(""), Some("Default")))
  {
    SampleLength();
    LengthBytes();
    SampleSeparators();
    var pong := UnconnectedPong(0x1C, SampleHeader, SampleFields).value;
    assert pong == [0x1C] + SampleHeader + [0x00, 0x77] + Utf8.Encode(Join(SampleFields, ';'));
    ParseRoundTrip(0x1C, SampleHeader, SampleFields, [], 1.0);
    assert pong + [] == pong;
  }
}
