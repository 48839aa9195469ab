/** The two codecs Python applies to protocol text: strict UTF-8 (`str.encode("utf8")`,
    `bytes.decode()`) and ISO-8859-1 (`"ISO-8859-1"`). A Dafny `char` is a Unicode scalar
    value, which is exactly what UTF-8 can encode. */
module Utf8 {
  import opened Wrappers
  import opened Bytes

  predicate IsContinuation(b: byte) { 0x80 <= b < 0xC0 }

  predicate IsScalar(v: int) { 0 <= v < 0xD800 || 0xE000 <= v < 0x11_0000 }

  /** The UTF-8 bytes of one character. */
  function EncodeChar(c: char): (r: seq<byte>)
    ensures 1 <= |r| <= 4
    ensures |r| == 1 <==> c as int < 0x80
  {
    var v := c as int;
    if v < 0x80 then [v]
    else if v < 0x800 then [0xC0 + v / 64, 0x80 + v % 64]
    else if v < 0x1_0000 then [0xE0 + v / 4096, 0x80 + (v / 64) % 64, 0x80 + v % 64]
    else [0xF0 + v / 262144, 0x80 + (v / 4096) % 64, 0x80 + (v / 64) % 64, 0x80 + v % 64]
  }

  /** `s.encode("utf8")`. */
  function Encode(s: string): (r: seq<byte>)
    ensures |r| >= |s|
  {
    if |s| == 0 then [] else EncodeChar(s[0]) + Encode(s[1..])
  }

  /** One character decoded from the front of `bs` and the number of bytes it used, or
      None when the front is not a well-formed sequence: a stray continuation byte, a
      truncated sequence, an overlong form, a surrogate, or a value above U+10FFFF. */
  function DecodeChar(bs: seq<byte>): (r: Option<(char, nat)>)
    requires |bs| > 0
    ensures r.Some? ==> 1 <= r.value.1 <= |bs| && r.value.1 <= 4
  {
    var b0: int := bs[0];
    if b0 < 0x80 then Some((b0 as char, 1))
    else if 0xC0 <= b0 < 0xE0 then
      if |bs| < 2 || !IsContinuation(bs[1]) then None
      else
        var v := (b0 - 0xC0) * 64 + Payload(bs[1]);
        if v < 0x80 then None else Some((v as char, 2))
    else if 0xE0 <= b0 < 0xF0 then
      if |bs| < 3 || !IsContinuation(bs[1]) || !IsContinuation(bs[2]) then None
      else
        var v := (b0 - 0xE0) * 4096 + Payload(bs[1]) * 64 + Payload(bs[2]);
        if v < 0x800 || !IsScalar(v) then None else Some((v as char, 3))
    else if 0xF0 <= b0 < 0xF8 then
      if |bs| < 4 || !IsContinuation(bs[1]) || !IsContinuation(bs[2]) || !IsContinuation(bs[3]) then None
      else
        var v := (b0 - 0xF0) * 262144 + Payload(bs[1]) * 4096 + Payload(bs[2]) * 64 + Payload(bs[3]);
        if v < 0x1_0000 || !IsScalar(v) then None else Some((v as char, 4))
    else None
  }

  /** The six payload bits of a continuation byte. */
  function Payload(b: byte): int
    requires IsContinuation(b)
  {
    b - 0x80
  }

  /** `bs.decode("utf8")`; None where Python raises UnicodeDecodeError. */
  function Decode(bs: seq<byte>): (r: Option<string>)
    ensures r.Some? ==> |r.value| <= |bs|
    decreases |bs|
  {
    if |bs| == 0 then Some([])
    else
      match DecodeChar(bs)
      case None => None
      case Some((c, n)) =>
        match Decode(bs[n..])
        case None => None
        case Some(rest) => Some([c] + rest)
  }

  lemma DecodeEncodeChar(c: char, rest: seq<byte>)
    ensures DecodeChar(EncodeChar(c) + rest) == Some((c, |EncodeChar(c)|))
  {
    var v := c as int;
    if v < 0x80 {
    } else if v < 0x800 {
      DecodeTwo(c, rest);
    } else if v < 0x1_0000 {
      DecodeThree(c, rest);
    } else {
      DecodeFour(c, rest);
    }
  }

  lemma DecodeTwo(c: char, rest: seq<byte>)
    requires 0x80 <= c as int < 0x800
    ensures DecodeChar(EncodeChar(c) + rest) == Some((c, 2))
  {
    var v := c as int;
    var bs := EncodeChar(c) + rest;
    assert bs[0] == 0xC0 + v / 64 && bs[1] == 0x80 + v % 64;
    assert (v / 64) * 64 + v % 64 == v;
  }

  lemma DecodeThree(c: char, rest: seq<byte>)
    requires 0x800 <= c as int < 0x1_0000
    ensures DecodeChar(EncodeChar(c) + rest) == Some((c, 3))
  {
    var v := c as int;
    var bs := EncodeChar(c) + rest;
    var hi, mid, lo := v / 4096, (v / 64) % 64, v % 64;
    assert bs[0] == 0xE0 + hi && bs[1] == 0x80 + mid && bs[2] == 0x80 + lo;
    assert v == hi * 4096 + mid * 64 + lo by {
      assert v == (v / 64) * 64 + lo;
      assert v / 64 == hi * 64 + mid;
    }
  }

  lemma DecodeFour(c: char, rest: seq<byte>)
    requires 0x1_0000 <= c as int
    ensures DecodeChar(EncodeChar(c) + rest) == Some((c, 4))
  {
    var v := c as int;
    var bs := EncodeChar(c) + rest;
    var top, hi, mid, lo := v / 262144, (v / 4096) % 64, (v / 64) % 64, v % 64;
    assert bs[0] == 0xF0 + top && bs[1] == 0x80 + hi && bs[2] == 0x80 + mid && bs[3] == 0x80 + lo;
    SixBitGroups(v);
  }

  /** A value of four six-bit groups below the top one is their weighted sum. */
  lemma SixBitGroups(v: nat)
    ensures v == (v / 262144) * 262144 + ((v / 4096) % 64) * 4096 + ((v / 64) % 64) * 64 + v % 64
  {
    var a := v / 64;
    var b := a / 64;
    assert b == v / 4096 && b / 64 == v / 262144;
    assert v == a * 64 + v % 64 && a == b * 64 + a % 64 && b == (b / 64) * 64 + b % 64;
  }

  /** UTF-8 decoding undoes UTF-8 encoding for every string. */
  lemma {:induction false} DecodeEncode(s: string)
    ensures Decode(Encode(s)) == Some(s)
  {
    if |s| > 0 {
      var e := EncodeChar(s[0]);
      DecodeEncodeChar(s[0], Encode(s[1..]));
      assert (e + Encode(s[1..]))[|e|..] == Encode(s[1..]);
      DecodeEncode(s[1..]);
      assert s == [s[0]] + s[1..];
    }
  }

  /** Encoding distributes over concatenation. */
  lemma {:induction false} EncodeAppend(a: string, b: string)
    ensures Encode(a + b) == Encode(a) + Encode(b)
  {
    if |a| > 0 {
      var e := EncodeChar(a[0]);
      assert (a + b)[0] == a[0] && (a + b)[1..] == a[1..] + b;
      EncodeAppend(a[1..], b);
      assert Encode(a + b) == e + (Encode(a[1..]) + Encode(b));
      assert Encode(a) == e + Encode(a[1..]);
    } else {
      assert a + b == b;
    }
  }

  predicate IsAscii(s: string) { forall i :: 0 <= i < |s| ==> s[i] as int < 0x80 }

  /** For ASCII text the UTF-8 bytes are the character codes, one per character. */
  lemma {:induction false} EncodeAscii(s: string)
    requires IsAscii(s)
    ensures |Encode(s)| == |s|
    ensures forall i :: 0 <= i < |s| ==> Encode(s)[i] == s[i] as int
  {
    if |s| > 0 {
      EncodeAscii(s[1..]);
    }
  }

  /** Any non-ASCII character makes the UTF-8 form longer than the text. */
  lemma {:induction false} EncodeLongerUnlessAscii(s: string)
    ensures |Encode(s)| == |s| <==> IsAscii(s)
  {
    if |s| > 0 {
      EncodeLongerUnlessAscii(s[1..]);
      if IsAscii(s) {
        assert IsAscii(s[1..]);
      } else if s[0] as int < 0x80 {
        assert !IsAscii(s[1..]) by {
          var i :| 0 <= i < |s| && s[i] as int >= 0x80;
          assert s[1..][i - 1] == s[i];
        }
      }
    }
  }

  /** `bytearray(s, "ISO-8859-1")`: one byte per character, or an encode error. */
  function Latin1Encode(s: string): (r: Outcome<seq<byte>>)
    ensures r.Success? <==> forall i :: 0 <= i < |s| ==> s[i] as int < 256
    ensures r.Success? ==> |r.value| == |s| && forall i :: 0 <= i < |s| ==> r.value[i] == s[i] as int
    ensures r.Failure? ==> r.error == UnicodeEncode
  {
    if |s| == 0 then Success([])
    else if s[0] as int >= 256 then Failure(UnicodeEncode)
    else
      match Latin1Encode(s[1..])
      case Failure(e) => Failure(e)
      case Success(rest) => Success([s[0] as int as byte] + rest)
  }

  /** `bs.decode("ISO-8859-1")`: every byte is the character with that code. */
  function Latin1Decode(bs: seq<byte>): (r: string)
    ensures |r| == |bs|
    ensures forall i :: 0 <= i < |bs| ==> r[i] as int == bs[i]
  {
    seq(|bs|, i requires 0 <= i < |bs| => bs[i] as char)
  }

  lemma Latin1RoundTrip(s: string)
    requires Latin1Encode(s).Success?
    ensures Latin1Decode(Latin1Encode(s).value) == s
  {
    var d := Latin1Decode(Latin1Encode(s).value);
    assert forall i :: 0 <= i < |s| ==> d[i] == s[i];
  }
}
