/** Python's string helpers as used by the parsers: `split`, `split(sep, 1)`, `strip`,
    `int()` and `str()` of an integer. Python 3 text is `string`; the Python 2 legacy
    script works on byte strings, which `Latin1Decode` turns into `string` one-for-one. */
module Text {
  import opened Wrappers

  /** The index of the first `d` in `s`. */
  function IndexOf<T(==)>(s: seq<T>, d: T): (i: nat)
    requires d in s
    ensures i < |s| && s[i] == d && d !in s[..i]
  {
    if s[0] == d then 0
    else
      assert d in s[1..] by { var k :| 0 <= k < |s| && s[k] == d; assert s[1..][k - 1] == d; }
      var j := IndexOf(s[1..], d);
      assert s[..j + 1] == [s[0]] + s[1..][..j];
      j + 1
  }

  /** The pieces joined back with the separator between them (`d.join(parts)`). */
  function Join<T>(parts: seq<seq<T>>, d: T): seq<T>
    requires |parts| >= 1
  {
    if |parts| == 1 then parts[0] else parts[0] + [d] + Join(parts[1..], d)
  }

  /** `s.split(d)` for a one-element separator: always at least one piece, none holding `d`,
      and joining the pieces with `d` gives `s` back. */
  function Split<T(==)>(s: seq<T>, d: T): (r: seq<seq<T>>)
    ensures |r| >= 1
    ensures forall i :: 0 <= i < |r| ==> d !in r[i]
    ensures Join(r, d) == s
    decreases |s|
  {
    if d !in s then [s]
    else
      var i := IndexOf(s, d);
      var rest := Split(s[i + 1..], d);
      assert s == s[..i] + [d] + s[i + 1..];
      [s[..i]] + rest
  }

  /** The first separator of `p + [d] + t` is the one after `p` when `p` has none. */
  lemma IndexOfAfterPrefix<T>(p: seq<T>, d: T, t: seq<T>)
    requires d !in p
    ensures d in p + [d] + t && IndexOf(p + [d] + t, d) == |p|
  {
    var j := p + [d] + t;
    assert j[|p|] == d;
  }

  /** Splitting a join of separator-free pieces gives the pieces back. */
  lemma {:induction false} SplitJoin<T>(parts: seq<seq<T>>, d: T)
    requires |parts| >= 1
    requires forall i :: 0 <= i < |parts| ==> d !in parts[i]
    ensures Split(Join(parts, d), d) == parts
  {
    if |parts| > 1 {
      var tail := Join(parts[1..], d);
      assert d !in parts[0];
      IndexOfAfterPrefix(parts[0], d, tail);
      var j := parts[0] + [d] + tail;
      assert j[|parts[0]| + 1..] == tail;
      assert j[..|parts[0]|] == parts[0];
      SplitJoin(parts[1..], d);
      assert Split(j, d) == [parts[0]] + Split(tail, d);
      assert parts == [parts[0]] + parts[1..];
    }
  }

  /** `needle in hay` for strings: `needle` occurs as a contiguous run of `hay`. */
  predicate HasInfix<T(==)>(hay: seq<T>, needle: seq<T>)
    decreases |hay|
  {
    |needle| <= |hay| && (hay[..|needle|] == needle || HasInfix(hay[1..], needle))
  }

  /** `needle` occurs in `hay` exactly when it starts at some index of `hay`. */
  lemma {:induction false} HasInfixAt<T>(hay: seq<T>, needle: seq<T>)
    ensures HasInfix(hay, needle) <==> exists i: nat :: OccursAt(hay, needle, i)
    decreases |hay|
  {
    var m := |needle|;
    if m <= |hay| && hay[..m] != needle {
      HasInfixAt(hay[1..], needle);
      if HasInfix(hay[1..], needle) {
        var j: nat :| OccursAt(hay[1..], needle, j);
        DropOneSlice(hay, j + 1, m);
        assert OccursAt(hay, needle, j + 1);
      } else if exists i: nat :: OccursAt(hay, needle, i) {
        var i: nat :| OccursAt(hay, needle, i);
        assert i != 0 by { assert hay[..m] == hay[0..m]; }
        DropOneSlice(hay, i, m);
        assert OccursAt(hay[1..], needle, i - 1);
        assert false;
      }
    } else if m <= |hay| {
      assert OccursAt(hay, needle, 0);
    }
  }

  /** A run of `hay` starting at k >= 1 is the run of `hay[1..]` starting one earlier. */
  lemma DropOneSlice<T>(hay: seq<T>, k: nat, m: nat)
    requires 1 <= k && k + m <= |hay|
    ensures hay[1..][k - 1..k - 1 + m] == hay[k..k + m]
  {
  }

  /** `s.split(d, 1)`: the text before the first `d` and, when there is one, the rest. */
  function SplitOnce<T(==)>(s: seq<T>, d: T): (r: seq<seq<T>>)
    ensures |r| == 1 <==> d !in s
    ensures |r| == 1 ==> r[0] == s
    ensures |r| == 2 ==> d !in r[0] && s == r[0] + [d] + r[1]
    ensures 1 <= |r| <= 2
  {
    if d !in s then [s] else var i := IndexOf(s, d); assert s == s[..i] + [d] + s[i + 1..]; [s[..i], s[i + 1..]]
  }

  /** Splitting at a separator absent from the head gives back the head and the tail. */
  lemma SplitOnceAt<T>(p: seq<T>, d: T, t: seq<T>)
    requires d !in p
    ensures SplitOnce(p + [d] + t, d) == [p, t]
  {
    var s := p + [d] + t;
    assert s[|p|] == d;
    var r := SplitOnce(s, d);
    assert r[0] == s[..|r[0]|] == p;
    assert r[1] == s[|p| + 1..] == t;
  }

  /** `s.split(d, n)`: at most `n` splits, made at the first separators; the last piece keeps
      the rest, separators and all. */
  function SplitMax<T(==)>(s: seq<T>, d: T, n: nat): (r: seq<seq<T>>)
    ensures 1 <= |r| <= n + 1
    ensures forall i :: 0 <= i < |r| - 1 ==> d !in r[i]
    ensures |r| <= n ==> d !in r[|r| - 1]
    decreases n
  {
    if n == 0 || d !in s then [s]
    else
      var i := IndexOf(s, d);
      [s[..i]] + SplitMax(s[i + 1..], d, n - 1)
  }

  /** Splitting `n` times a join of `n + 1` pieces whose first `n` hold no separator gives the
      pieces back, whatever the last one holds. */
  lemma {:induction false} SplitMaxJoin<T>(parts: seq<seq<T>>, d: T, n: nat)
    requires |parts| == n + 1
    requires forall i :: 0 <= i < |parts| - 1 ==> d !in parts[i]
    ensures SplitMax(Join(parts, d), d, n) == parts
    decreases n
  {
    if n > 0 {
      var tail := Join(parts[1..], d);
      assert d !in parts[0];
      SplitMaxStep(parts[0], d, tail, n);
      SplitMaxJoin(parts[1..], d, n - 1);
      assert parts == [parts[0]] + parts[1..];
    } else {
      assert parts == [parts[0]];
    }
  }

  /** The first split of `p + [d] + t` is right after `p` when `p` has no separator. */
  lemma SplitMaxStep<T>(p: seq<T>, d: T, t: seq<T>, n: nat)
    requires d !in p && n > 0
    ensures SplitMax(p + [d] + t, d, n) == [p] + SplitMax(t, d, n - 1)
  {
    IndexOfAfterPrefix(p, d, t);
    var j := p + [d] + t;
    assert j[|p| + 1..] == t;
    assert j[..|p|] == p;
  }

  /** `needle` occurs in `hay` at `j`. */
  predicate OccursAt<T(==)>(hay: seq<T>, needle: seq<T>, j: nat)
  {
    j + |needle| <= |hay| && hay[j..j + |needle|] == needle
  }

  /** `hay.find(needle)`: the leftmost place `needle` occurs, if any. */
  function Find<T(==)>(hay: seq<T>, needle: seq<T>): (r: Option<nat>)
    requires |needle| > 0
    ensures r.Some? ==> OccursAt(hay, needle, r.value)
    ensures r.Some? ==> forall j :: 0 <= j < r.value ==> !OccursAt(hay, needle, j)
    ensures r.None? ==> forall j :: 0 <= j <= |hay| ==> !OccursAt(hay, needle, j)
    decreases |hay|
  {
    if |hay| < |needle| then None
    else if hay[..|needle|] == needle then Some(0)
    else
      var r := Find(hay[1..], needle);
      forall j | 1 <= j <= |hay| ensures OccursAt(hay, needle, j) == OccursAt(hay[1..], needle, j - 1) {
        OccursShift(hay, needle, j - 1);
      }
      assert !OccursAt(hay, needle, 0);
      if r.None? then None else Some(r.value + 1)
  }

  lemma OccursShift<T>(hay: seq<T>, needle: seq<T>, j: nat)
    requires |hay| > 0
    ensures OccursAt(hay, needle, j + 1) == OccursAt(hay[1..], needle, j)
  {
    if j + 1 + |needle| <= |hay| {
      assert hay[j + 1..j + 1 + |needle|] == hay[1..][j..j + |needle|];
    }
  }

  /** `hay.split(sep)` for a separator of any length: the pieces between the occurrences met
      left to right, each search resuming after the occurrence just found. */
  function SplitOn<T(==)>(hay: seq<T>, sep: seq<T>): (r: seq<seq<T>>)
    requires |sep| > 0
    ensures |r| >= 1
    decreases |hay|
  {
    match Find(hay, sep)
    case None => [hay]
    case Some(i) => [hay[..i]] + SplitOn(hay[i + |sep|..], sep)
  }

  /** When `sep` first occurs right after `p` and not at all in `t`, splitting `p + sep + t`
      gives exactly `p` and `t`. */
  lemma SplitOnOnce<T>(p: seq<T>, sep: seq<T>, t: seq<T>)
    requires |sep| > 0
    requires forall j :: 0 <= j < |p| ==> !OccursAt(p + sep + t, sep, j)
    requires forall j :: 0 <= j <= |t| ==> !OccursAt(t, sep, j)
    ensures SplitOn(p + sep + t, sep) == [p, t]
  {
    var s := p + sep + t;
    assert OccursAt(s, sep, |p|) by { assert s[|p|..|p| + |sep|] == sep; }
    var f := Find(s, sep);
    assert f == Some(|p|);
    assert s[..|p|] == p && s[|p| + |sep|..] == t;
    assert Find(t, sep).None?;
  }

  /** `s.lstrip()` for the whitespace class `ws`. */
  function LStrip<T>(s: seq<T>, ws: T -> bool): (r: seq<T>)
    ensures |r| <= |s| && r == s[|s| - |r|..]
    ensures forall i :: 0 <= i < |s| - |r| ==> ws(s[i])
    ensures |r| > 0 ==> !ws(r[0])
  {
    if |s| == 0 || !ws(s[0]) then s else LStrip(s[1..], ws)
  }

  /** `s.rstrip()` for the whitespace class `ws`. */
  function RStrip<T>(s: seq<T>, ws: T -> bool): (r: seq<T>)
    ensures |r| <= |s| && r == s[..|r|]
    ensures forall i :: |r| <= i < |s| ==> ws(s[i])
    ensures |r| > 0 ==> !ws(r[|r| - 1])
  {
    if |s| == 0 || !ws(s[|s| - 1]) then s else RStrip(s[..|s| - 1], ws)
  }

  /** `s.strip()`: `s` without its leading and trailing whitespace. */
  function Strip<T>(s: seq<T>, ws: T -> bool): (r: seq<T>)
    ensures |r| <= |s|
    ensures |r| > 0 ==> !ws(r[0]) && !ws(r[|r| - 1])
    ensures (forall i :: 0 <= i < |s| ==> ws(s[i])) ==> r == []
  {
    var l := LStrip(s, ws);
    RStrip(l, ws)
  }

  /** Text that already starts and ends with non-whitespace is left as it is. */
  lemma StripTrimmed<T>(s: seq<T>, ws: T -> bool)
    requires |s| > 0 ==> !ws(s[0]) && !ws(s[|s| - 1])
    ensures Strip(s, ws) == s
  {
  }

  /** Leading whitespace in front of trimmed text is dropped. */
  lemma {:induction false} StripAfterSpace<T>(w: T, s: seq<T>, ws: T -> bool)
    requires ws(w)
    requires |s| > 0 ==> !ws(s[0]) && !ws(s[|s| - 1])
    ensures Strip([w] + s, ws) == s
  {
    assert ([w] + s)[1..] == s;
    if |s| > 0 {
      assert LStrip([w] + s, ws) == LStrip(s, ws) == s;
    } else {
      assert LStrip([w] + s, ws) == LStrip(s, ws) == [];
    }
  }

  /** Whitespace as Python 3's `str.isspace` defines it (what `strip()` and `int()` drop). */
  predicate IsSpace3(c: char) {
    var v := c as int;
    (0x09 <= v <= 0x0D) || (0x1C <= v <= 0x20) || v == 0x85 || v == 0xA0 || v == 0x1680
    || (0x2000 <= v <= 0x200A) || v == 0x2028 || v == 0x2029 || v == 0x202F || v == 0x205F || v == 0x3000
  }

  /** Whitespace of a Python 2 byte string (C `isspace`): space, \t, \n, \v, \f, \r. */
  predicate IsSpace2(c: char) {
    c == ' ' || (0x09 <= c as int <= 0x0D)
  }

  /** The two `int()` dialects: Python 3 accepts `_` between digits and Python 2 does not;
      Python 2 skips blanks between the sign and the digits and Python 3 does not. */
  datatype Dialect = Py2 | Py3 {
    /** The whitespace class `int()` strips in this dialect. */
    function Space(): char -> bool { if Py2? then IsSpace2 else IsSpace3 }
  }

  predicate IsDigit(c: char) { '0' <= c <= '9' }

  /** A digit string as `int()` accepts it: digits, with single `_` between digits in Python 3. */
  predicate WellFormedDigits(ds: string, d: Dialect) {
    && |ds| > 0 && IsDigit(ds[0]) && IsDigit(ds[|ds| - 1])
    && (forall i :: 0 <= i < |ds| ==> IsDigit(ds[i]) || (d.Py3? && ds[i] == '_'))
    && (forall i :: 0 <= i < |ds| - 1 ==> ds[i] == '_' ==> ds[i + 1] != '_')
  }

  /** The decimal value of the digits in `ds`, skipping underscores. */
  function DigitsValue(ds: string): nat
  {
    if |ds| == 0 then 0
    else if IsDigit(ds[|ds| - 1]) then DigitsValue(ds[..|ds| - 1]) * 10 + (ds[|ds| - 1] as int - '0' as int)
    else DigitsValue(ds[..|ds| - 1])
  }

  /** The blanks C's `strtoul` skips in front of the digits, dropped. */
  function SkipBlanks(t: string): string
  {
    if |t| > 0 && IsSpace2(t[0]) then SkipBlanks(t[1..]) else t
  }

  /** `SkipBlanks` keeps a suffix, drops only blanks, and stops at a non-blank. */
  lemma {:induction false} SkipBlanksSuffix(t: string)
    ensures |SkipBlanks(t)| <= |t| && SkipBlanks(t) == t[|t| - |SkipBlanks(t)|..]
    ensures forall i :: 0 <= i < |t| - |SkipBlanks(t)| ==> IsSpace2(t[i])
    ensures |SkipBlanks(t)| > 0 ==> !IsSpace2(SkipBlanks(t)[0])
  {
    if |t| > 0 && IsSpace2(t[0]) {
      SkipBlanksSuffix(t[1..]);
      forall i | 1 <= i < |t| - |SkipBlanks(t)|
        ensures IsSpace2(t[i])
      {
        assert t[i] == t[1..][i - 1];
      }
    }
  }

  /** `SkipBlanks` drops a run of blanks in front of text that starts with a non-blank. */
  lemma {:induction false} SkipBlanksRun(w: string, s: string)
    requires forall i :: 0 <= i < |w| ==> IsSpace2(w[i])
    requires |s| > 0 && !IsSpace2(s[0])
    ensures SkipBlanks(w + s) == s
  {
    if |w| > 0 {
      assert (w + s)[1..] == w[1..] + s;
      SkipBlanksRun(w[1..], s);
    }
  }

  /** The part of stripped text `t` that `int()` reads digits from: `t` without a leading sign,
      and in Python 2 also without the blanks C's `strtoul` skips after the sign. */
  function Magnitude(t: string, d: Dialect): string
  {
    if |t| > 0 && (t[0] == '-' || t[0] == '+') then
      if d.Py2? then SkipBlanks(t[1..]) else t[1..]
    else t
  }

  /** Where `Magnitude` is well formed, the text around it is the sign and, in Python 2, the
      whitespace after the sign. */
  lemma {:induction false} MagnitudeChars(t: string, d: Dialect)
    requires WellFormedDigits(Magnitude(t, d), d)
    ensures forall i :: 0 <= i < |t| ==>
      IsDigit(t[i]) || (i == 0 && t[i] in "+-") || (d.Py3? && t[i] == '_') || (d.Py2? && 0 < i && t[0] in "+-" && d.Space()(t[i]))
  {
    var m := Magnitude(t, d);
    if |t| > 0 && (t[0] == '-' || t[0] == '+') && d.Py2? {
      SkipBlanksSuffix(t[1..]);
    }
    var k := |t| - |m|;
    assert m == t[k..];
    forall i | 0 <= i < |t|
      ensures IsDigit(t[i]) || (i == 0 && t[i] in "+-") || (d.Py3? && t[i] == '_') || (d.Py2? && 0 < i && t[0] in "+-" && d.Space()(t[i]))
    {
      if i >= k {
        assert t[i] == m[i - k];
      } else if i > 0 {
        assert d.Py2? && t[1..][i - 1] == t[i];
      }
    }
  }

  /** Python's `int(s)` in base 10: surrounding whitespace, an optional sign, then digits (Python 2
      also skips whitespace between the sign and the digits). None where Python raises ValueError. */
  function ParseInt(s: string, d: Dialect): (r: Option<int>)
    ensures Strip(s, d.Space()) == [] ==> r.None?
    ensures r.Some? ==> forall i :: 0 <= i < |Strip(s, d.Space())| ==>
      IsDigit(Strip(s, d.Space())[i]) || (i == 0 && Strip(s, d.Space())[i] in "+-") || (d.Py3? && Strip(s, d.Space())[i] == '_')
      || (d.Py2? && 0 < i && Strip(s, d.Space())[0] in "+-" && d.Space()(Strip(s, d.Space())[i]))
    ensures r.Some? && r.value < 0 ==> Strip(s, d.Space())[0] == '-'
    ensures r.Some? <==> WellFormedDigits(Magnitude(Strip(s, d.Space()), d), d)
    ensures r.Some? ==> r.value == if Strip(s, d.Space())[0] == '-' then 0 - DigitsValue(Magnitude(Strip(s, d.Space()), d)) as int
                                   else DigitsValue(Magnitude(Strip(s, d.Space()), d))
  {
    var t := Strip(s, d.Space());
    var neg := |t| > 0 && t[0] == '-';
    var ds := Magnitude(t, d);
    if !WellFormedDigits(ds, d) then None
    else
      MagnitudeChars(t, d);
      var n: int := DigitsValue(ds);
      Some(if neg then -n else n)
  }

  /** The decimal digits of `n`, most significant first, with no leading zero. */
  function Digits(n: nat): (r: string)
    ensures |r| > 0 && forall i :: 0 <= i < |r| ==> IsDigit(r[i])
    ensures |r| > 1 ==> r[0] != '0'
  {
    if n < 10 then [('0' as int + n) as char] else Digits(n / 10) + [('0' as int + n % 10) as char]
  }

  /** `str(n)` for an integer. */
  function FormatInt(n: int): (r: string)
    ensures |r| > 0
  {
    if n < 0 then "-" + Digits(-n) else Digits(n)
  }

  lemma {:induction false} DigitsValueOfDigits(n: nat)
    ensures DigitsValue(Digits(n)) == n
  {
    if n >= 10 {
      var ds := Digits(n);
      assert ds[..|ds| - 1] == Digits(n / 10);
      DigitsValueOfDigits(n / 10);
    }
  }

  lemma DigitsWellFormed(n: nat, d: Dialect)
    ensures WellFormedDigits(Digits(n), d)
  {
  }

  /** Trimmed text whose magnitude is well formed parses to its signed value. */
  lemma ParseTrimmed(s: string, d: Dialect)
    requires Strip(s, d.Space()) == s
    requires WellFormedDigits(Magnitude(s, d), d)
    ensures ParseInt(s, d) == Some(if s[0] == '-' then 0 - DigitsValue(Magnitude(s, d)) as int else DigitsValue(Magnitude(s, d)))
  {
  }

  /** A sign in front of digits is all `Magnitude` drops. */
  lemma MagnitudeOfDigits(ds: string, d: Dialect)
    requires |ds| > 0 && IsDigit(ds[0])
    ensures Magnitude(ds, d) == ds && Magnitude(['-'] + ds, d) == ds
  {
    assert (['-'] + ds)[1..] == ds;
  }

  /** Trimmed text whose magnitude is not well formed does not parse. */
  lemma ParseIllFormed(s: string, d: Dialect)
    requires Strip(s, d.Space()) == s
    requires !WellFormedDigits(Magnitude(s, d), d)
    ensures ParseInt(s, d) == None
  {
    assert !WellFormedDigits(Magnitude(Strip(s, d.Space()), d), d);
  }

  /** Trimmed text with a known first character and a well-formed magnitude parses to its
      value. */
  lemma ParseSigned(s: string, d: Dialect, c: char, ds: string)
    requires |s| > 0 && s[0] == c && Strip(s, d.Space()) == s && Magnitude(s, d) == ds
    requires WellFormedDigits(ds, d)
    ensures ParseInt(s, d) == Some(if c == '-' then 0 - DigitsValue(ds) as int else DigitsValue(ds))
  {
    ParseTrimmed(s, d);
  }

  /** Text that starts with a sign and ends with a non-blank is trimmed, and Python 3 reads
      what follows the sign as the digits. */
  lemma SignedTrimmed(s: string, d: Dialect)
    requires |s| > 1 && (s[0] == '-' || s[0] == '+') && !d.Space()(s[|s| - 1])
    ensures Strip(s, d.Space()) == s
    ensures d.Py3? ==> Magnitude(s, d) == s[1..]
  {
    assert !IsSpace2(s[0]) && !IsSpace3(s[0]);
    StripTrimmed(s, d.Space());
  }

  /** Digits parse to their value. */
  lemma ParseDigits(ds: string, d: Dialect)
    requires WellFormedDigits(ds, d)
    ensures ParseInt(ds, d) == Some(DigitsValue(ds))
  {
    MagnitudeOfDigits(ds, d);
    assert !d.Space()(ds[0]) && !d.Space()(ds[|ds| - 1]);
    StripTrimmed(ds, d.Space());
    ParseTrimmed(ds, d);
  }

  /** Digits behind a minus sign parse to their negated value. */
  lemma ParseNegated(ds: string, d: Dialect)
    requires WellFormedDigits(ds, d)
    ensures ParseInt(['-'] + ds, d) == Some(0 - DigitsValue(ds) as int)
  {
    var s := ['-'] + ds;
    MagnitudeOfDigits(ds, d);
    assert s[|s| - 1] == ds[|ds| - 1];
    assert !d.Space()(s[0]) && !d.Space()(s[|s| - 1]);
    StripTrimmed(s, d.Space());
    ParseSigned(s, d, '-', ds);
  }

  /** Whitespace between the sign and the digits: Python 2's `int()` skips it, because C's
      `strtol` takes the sign and `strtoul` then skips blanks again. */
  lemma SpaceAfterSign(c: char, w: string, ds: string)
    requires c == '-' || c == '+'
    requires forall i :: 0 <= i < |w| ==> IsSpace2(w[i])
    requires WellFormedDigits(ds, Py2)
    ensures ParseInt([c] + w + ds, Py2) == Some(if c == '-' then 0 - DigitsValue(ds) as int else DigitsValue(ds))
  {
    var s := [c] + w + ds;
    assert s[0] == c && Strip(s, Py2.Space()) == s && Magnitude(s, Py2) == ds by {
      assert s[0] == c && s[|s| - 1] == ds[|ds| - 1] && s[1..] == w + ds;
      StripTrimmed(s, IsSpace2);
      SkipBlanksRun(w, ds);
    }
    ParseSigned(s, Py2, c, ds);
  }

  /** Python 3's `int()` rejects whitespace between the sign and the digits: a blank right
      after the sign is enough, whatever follows it. */
  lemma SpaceAfterSignRejected(c: char, w: string, ds: string)
    requires c == '-' || c == '+'
    requires |w| > 0 && IsSpace3(w[0])
    requires WellFormedDigits(ds, Py3)
    ensures ParseInt([c] + w + ds, Py3) == None
  {
    var s := [c] + w + ds;
    assert s[0] == c && s[1] == w[0] && s[|s| - 1] == ds[|ds| - 1];
    SignedTrimmed(s, Py3);
    assert !IsDigit(s[1..][0]);
    ParseIllFormed(s, Py3);
  }

  /** Python 2 reads `int("- 5")` as -5. */
  lemma SpaceAfterSignVector()
    ensures ParseInt("- 5", Py2) == Some(-5)
  {
    assert "- 5" == ['-'] + " " + "5" && DigitsValue("5") == 5;
    SpaceAfterSign('-', " ", "5");
  }

  /** Python 3 rejects `int("- 5")`. */
  lemma SpaceAfterSignRejectedVector()
    ensures ParseInt("- 5", Py3) == None
  {
    assert "- 5" == ['-'] + " " + "5";
    SpaceAfterSignRejected('-', " ", "5");
  }


  /** `int(str(n)) == n` in both dialects. */
  lemma ParseFormatInt(n: int, d: Dialect)
    ensures ParseInt(FormatInt(n), d) == Some(n)
  {
    var m: nat := if n < 0 then -n else n;
    DigitsValueOfDigits(m);
    DigitsWellFormed(m, d);
    if n < 0 {
      ParseNegated(Digits(m), d);
    } else {
      ParseDigits(Digits(m), d);
    }
  }
}
