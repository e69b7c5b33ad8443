/** The Python string operations the core relies on: str.strip, str.rstrip,
    str.split with an explicit separator, int() on a string and str() on an int. */
module PyStr {
  import opened Wrappers
  import opened Seqs

  /** str.isspace() of a single character: the characters Python strips by default. */
  predicate IsSpace(c: char) {
    c == ' ' || '\t' <= c <= '\r' || '\U{1c}' <= c <= '\U{1f}' ||
    c == '\U{85}' || c == '\U{a0}' || c == '\U{1680}' || '\U{2000}' <= c <= '\U{200a}' ||
    c == '\U{2028}' || c == '\U{2029}' || c == '\U{202f}' || c == '\U{205f}' || c == '\U{3000}'
  }

  /** ASCII decimal digit. */
  predicate IsDigit(c: char) {
    '0' <= c <= '9'
  }

  /** ASCII letter. */
  predicate IsAlpha(c: char) {
    'a' <= c <= 'z' || 'A' <= c <= 'Z'
  }

  /** `s` without the trailing characters that satisfy `drop`. */
  function TrimEnd(s: string, drop: char -> bool): (r: string)
    ensures r <= s
    ensures r == [] || !drop(r[|r| - 1])
    ensures forall i :: |r| <= i < |s| ==> drop(s[i])
  {
    if s != [] && drop(s[|s| - 1]) then TrimEnd(s[..|s| - 1], drop) else s
  }

  /** `s` without the leading characters that satisfy `drop`. */
  function TrimStart(s: string, drop: char -> bool): (r: string)
    ensures |r| <= |s| && r == s[|s| - |r|..]
    ensures r == [] || !drop(r[0])
    ensures forall i :: 0 <= i < |s| - |r| ==> drop(s[i])
  {
    if s != [] && drop(s[0]) then TrimStart(s[1..], drop) else s
  }

  /** str.strip() with no argument. */
  function Strip(s: string): string {
    TrimStart(TrimEnd(s, IsSpace), IsSpace)
  }

  /** str.rstrip(c) with a one-character argument. */
  function RStrip(s: string, c: char): string {
    TrimEnd(s, x => x == c)
  }

  /** Concatenation of `parts` with `sep` between neighbours: sep.join(parts). */
  function Join(parts: seq<string>, sep: char): string
    requires |parts| > 0
  {
    if |parts| == 1 then parts[0] else parts[0] + [sep] + Join(parts[1..], sep)
  }

  /** str.split(sep) with an explicit one-character separator: every occurrence
      of `sep` cuts, so adjacent separators give empty pieces and there is
      always at least one piece. */
  function Split(s: string, sep: char): (r: seq<string>)
    ensures |r| > 0
    ensures forall i :: 0 <= i < |r| ==> sep !in r[i]
    ensures Join(r, sep) == s
  {
    if s == [] then [""]
    else
      var rest := Split(s[1..], sep);
      if s[0] == sep then [""] + rest
      else [[s[0]] + rest[0]] + rest[1..]
  }

  /** A numeral as int() accepts it after the sign: ASCII digits, with single
      underscores allowed between two digits. */
  predicate IsNumeral(s: string) {
    |s| > 0 && IsDigit(s[0]) &&
    (|s| == 1 || IsNumeral(s[1..]) || (s[1] == '_' && IsNumeral(s[2..])))
  }

  lemma {:induction false} AllDigitsNumeral(s: string)
    requires |s| > 0 && forall i :: 0 <= i < |s| ==> IsDigit(s[i])
    ensures IsNumeral(s)
    decreases |s|
  {
    if |s| > 1 {
      AllDigitsNumeral(s[1..]);
    }
  }

  function DigitValue(c: char): nat
    requires IsDigit(c)
  {
    c as int - '0' as int
  }

  function DigitChar(n: nat): (c: char)
    requires n < 10
    ensures IsDigit(c) && DigitValue(c) == n
  {
    ('0' as int + n) as char
  }

  /** The value of the digits of `s`, underscores ignored. */
  function NumeralValue(s: string): nat {
    if s == [] then 0
    else if IsDigit(Last(s)) then NumeralValue(s[..|s| - 1]) * 10 + DigitValue(Last(s))
    else NumeralValue(s[..|s| - 1])
  }

  /** int(s) on a string: None where Python raises ValueError. */
  function ParseInt(s: string): Option<int> {
    var t := Strip(s);
    if |t| > 0 && (t[0] == '+' || t[0] == '-') then
      if IsNumeral(t[1..]) then
        var v: int := NumeralValue(t[1..]);
        Some(if t[0] == '-' then -v else v)
      else None
    else if IsNumeral(t) then Some(NumeralValue(t))
    else None
  }

  /** str(n) for a natural number. */
  function NatToStr(n: nat): (r: string)
    ensures |r| > 0 && forall i :: 0 <= i < |r| ==> IsDigit(r[i])
  {
    if n < 10 then [DigitChar(n)] else NatToStr(n / 10) + [DigitChar(n % 10)]
  }

  /** str(n) for an integer. */
  function IntToStr(n: int): string {
    if n < 0 then "-" + NatToStr(-n) else NatToStr(n)
  }

  /** Two-digit zero-padded rendering, as minutes appear in "h:mm". */
  function Pad2(n: nat): (r: string)
    requires n < 100
  {
    [DigitChar(n / 10), DigitChar(n % 10)]
  }

  // ---- Lemmas -----------------------------------------------------------

  /** Splitting at a separator splits the two sides independently. */
  lemma {:induction false} SplitAround(a: string, b: string, sep: char)
    ensures Split(a + [sep] + b, sep) == Split(a, sep) + Split(b, sep)
    decreases |a|
  {
    if a == [] {
      assert a + [sep] + b == [sep] + b;
      assert ([sep] + b)[1..] == b;
    } else {
      assert (a + [sep] + b)[1..] == a[1..] + [sep] + b;
      SplitAround(a[1..], b, sep);
    }
  }

  /** A string without the separator is a single piece. */
  lemma {:induction false} SplitWhole(s: string, sep: char)
    requires sep !in s
    ensures Split(s, sep) == [s]
    decreases |s|
  {
    if s != [] {
      assert sep !in s[1..];
      SplitWhole(s[1..], sep);
    }
  }

  /** Split inverts Join on pieces that do not contain the separator. */
  lemma {:induction false} SplitJoin(parts: seq<string>, sep: char)
    requires |parts| > 0
    requires forall i :: 0 <= i < |parts| ==> sep !in parts[i]
    ensures Split(Join(parts, sep), sep) == parts
    decreases |parts|
  {
    if |parts| == 1 {
      SplitWhole(parts[0], sep);
    } else {
      SplitJoin(parts[1..], sep);
      SplitAround(parts[0], Join(parts[1..], sep), sep);
      SplitWhole(parts[0], sep);
      assert [parts[0]] + parts[1..] == parts;
    }
  }

  /** The last piece of a split is the text after the last separator. */
  lemma LastPiece(prefix: string, token: string, sep: char)
    requires prefix == [] || Last(prefix) == sep
    requires sep !in token
    ensures Last(Split(prefix + token, sep)) == token
  {
    SplitWhole(token, sep);
    if prefix == [] {
      assert prefix + token == token;
    } else {
      var p := prefix[..|prefix| - 1];
      assert prefix + token == p + [sep] + token;
      SplitAround(p, token, sep);
    }
  }

  lemma StripUnpadded(s: string)
    requires s != [] && !IsSpace(s[0]) && !IsSpace(Last(s))
    ensures Strip(s) == s
  {
  }

  lemma {:induction false} NumeralValueAppend(s: string, c: char)
    requires IsDigit(c)
    ensures NumeralValue(s + [c]) == NumeralValue(s) * 10 + DigitValue(c)
  {
    assert (s + [c])[..|s|] == s;
  }

  /** int() reads back what str() wrote, for a natural number. */
  lemma {:induction false} NatToStrRoundTrip(n: nat)
    ensures IsNumeral(NatToStr(n))
    ensures NumeralValue(NatToStr(n)) == n
    decreases n
  {
    AllDigitsNumeral(NatToStr(n));
    if n >= 10 {
      NatToStrRoundTrip(n / 10);
      NumeralValueAppend(NatToStr(n / 10), DigitChar(n % 10));
    } else {
      assert NumeralValue([DigitChar(n)]) == NumeralValue([]) * 10 + n by {
        NumeralValueAppend([], DigitChar(n));
      }
    }
  }

  /** int(str(n)) == n. */
  lemma ParseIntRoundTrip(n: int)
    ensures ParseInt(IntToStr(n)) == Some(n)
  {
    if n < 0 {
      var m: nat := -n;
      NatToStrRoundTrip(m);
      ParseNegative(NatToStr(m));
      assert IntToStr(n) == "-" + NatToStr(m);
    } else {
      NatToStrRoundTrip(n);
      ParseUnsigned(NatToStr(n));
    }
  }

  lemma ParseUnsigned(t: string)
    requires IsNumeral(t) && !IsSpace(Last(t))
    ensures ParseInt(t) == Some(NumeralValue(t))
  {
    StripUnpadded(t);
  }

  lemma ParseNegative(digits: string)
    requires IsNumeral(digits) && !IsSpace(Last(digits))
    ensures ParseInt("-" + digits) == Some(-(NumeralValue(digits) as int))
  {
    var t := "-" + digits;
    assert t[1..] == digits && Last(t) == Last(digits);
    StripUnpadded(t);
  }

  /** int() reads a zero-padded two-digit numeral as its value. */
  lemma ParsePad2(n: nat)
    requires n < 100
    ensures ParseInt(Pad2(n)) == Some(n)
  {
    Pad2Value(n);
    ParseUnsigned(Pad2(n));
  }

  lemma Pad2Value(n: nat)
    requires n < 100
    ensures IsNumeral(Pad2(n)) && !IsSpace(Last(Pad2(n)))
    ensures NumeralValue(Pad2(n)) == n
  {
    var tens, units := n / 10, n % 10;
    var s := Pad2(n);
    AllDigitsNumeral(s);
    assert s[..1] == [s[0]] && [s[0]][..0] == [];
    assert NumeralValue([s[0]]) == tens;
    assert NumeralValue(s) == tens * 10 + units;
  }
}
