/** The Python 3 string builtins that the scraper's data-shaping code relies on:
    `str.split()`, `str.split(sep)`, `str.strip()`, `str.zfill(2)`, `s[-2:]`,
    `str.lower()` compared against a lower-case ASCII word, `int(s)`,
    `float(s)` and `str(n)`. Characters are Unicode scalar values, as in
    Python's `str`. */
module PyText {
  import opened Common

  // ---------------------------------------------------------------------
  // Whitespace and `str.split()`
  // ---------------------------------------------------------------------

  /** `c.isspace()`: the characters CPython treats as whitespace. */
  predicate IsSpace(c: char) {
    || c == ' '
    || '\U{9}' <= c <= '\U{D}'
    || '\U{1C}' <= c <= '\U{1F}'
    || c == '\U{85}' || c == '\U{A0}' || c == '\U{1680}'
    || '\U{2000}' <= c <= '\U{200A}'
    || c == '\U{2028}' || c == '\U{2029}' || c == '\U{202F}'
    || c == '\U{205F}' || c == '\U{3000}'
  }

  predicate NoSpace(w: string) {
    forall i :: 0 <= i < |w| ==> !IsSpace(w[i])
  }

  predicate AllSpace(w: string) {
    forall i :: 0 <= i < |w| ==> IsSpace(w[i])
  }

  /** Length of the run of non-space characters at the front of `s`. */
  function WordEnd(s: string): (n: nat)
    requires s != [] && !IsSpace(s[0])
    ensures 0 < n <= |s| && NoSpace(s[..n])
    ensures n < |s| ==> IsSpace(s[n])
  {
    if |s| == 1 || IsSpace(s[1]) then 1 else 1 + WordEnd(s[1..])
  }

  /** `s.split()` with no argument: the maximal runs of non-space
      characters, in order; leading, trailing and repeated whitespace
      produce no empty words. */
  function Words(s: string): (ws: seq<string>)
    decreases |s|
  {
    if s == [] then []
    else if IsSpace(s[0]) then Words(s[1..])
    else
      var n := WordEnd(s);
      [s[..n]] + Words(s[n..])
  }

  lemma {:induction false} WordsSkipSpace(sp: string, s: string)
    requires AllSpace(sp)
    ensures Words(sp + s) == Words(s)
    decreases |sp|
  {
    if sp != [] {
      assert (sp + s)[0] == sp[0];
      assert (sp + s)[1..] == sp[1..] + s;
      WordsSkipSpace(sp[1..], s);
    } else {
      assert sp + s == s;
    }
  }

  lemma {:induction false} WordEndOfWord(w: string, rest: string)
    requires w != [] && NoSpace(w)
    requires rest == [] || IsSpace(rest[0])
    ensures WordEnd(w + rest) == |w|
    decreases |w|
  {
    if |w| > 1 {
      assert (w + rest)[1..] == w[1..] + rest;
      WordEndOfWord(w[1..], rest);
    }
  }

  /** A word followed by whitespace (or by nothing) splits off as the first word. */
  lemma WordsOfWord(w: string, rest: string)
    requires w != [] && NoSpace(w)
    requires rest == [] || IsSpace(rest[0])
    ensures Words(w + rest) == [w] + Words(rest)
  {
    WordEndOfWord(w, rest);
    assert (w + rest)[..|w|] == w;
    assert (w + rest)[|w|..] == rest;
  }

  /** A text made of whitespace has no words. */
  lemma {:induction false} AllSpaceNoWords(s: string)
    requires AllSpace(s)
    ensures Words(s) == []
  {
    if s != [] {
      AllSpaceNoWords(s[1..]);
    }
  }

  /** Only a text made of whitespace has no words. */
  lemma {:induction false} NoWordsAllSpace(s: string)
    requires Words(s) == []
    ensures AllSpace(s)
  {
    if s != [] {
      NoWordsAllSpace(s[1..]);
    }
  }

  /** `"a b".split() == ["a", "b"]` for two words separated by whitespace. */
  lemma TwoWords(a: string, sp: string, b: string)
    requires a != [] && NoSpace(a) && b != [] && NoSpace(b)
    requires sp != [] && AllSpace(sp)
    ensures Words(a + sp + b) == [a, b]
  {
    assert a + sp + b == a + (sp + b);
    WordsOfWord(a, sp + b);
    WordsSkipSpace(sp, b);
    WordsOfWord(b, []);
    assert b + [] == b;
    assert Words([]) == [];
  }

  // ---------------------------------------------------------------------
  // `str.split(sep)` for a one-character separator
  // ---------------------------------------------------------------------

  /** `s.split(sep)`: the pieces between occurrences of `sep`; there is
      always at least one piece, and adjacent separators give empty ones. */
  function Split(s: string, sep: char): (parts: seq<string>)
    ensures |parts| >= 1
  {
    if s == [] then [""]
    else
      var rest := Split(s[1..], sep);
      if s[0] == sep then [""] + rest else [[s[0]] + rest[0]] + rest[1..]
  }

  /** `sep.join(parts)`. */
  function Join(parts: seq<string>, sep: char): string
    requires |parts| >= 1
  {
    if |parts| == 1 then parts[0] else parts[0] + [sep] + Join(parts[1..], sep)
  }

  /** Splitting loses nothing: joining the pieces restores the text. */
  lemma {:induction false} JoinSplit(s: string, sep: char)
    ensures Join(Split(s, sep), sep) == s
  {
    if s != [] {
      var rest := Split(s[1..], sep);
      JoinSplit(s[1..], sep);
      if s[0] != sep && |rest| > 1 {
        assert Join(rest, sep) == rest[0] + [sep] + Join(rest[1..], sep);
        assert ([[s[0]] + rest[0]] + rest[1..])[1..] == rest[1..];
      }
    }
  }

  /** A text without the separator is a single piece. */
  lemma {:induction false} SplitNoSep(s: string, sep: char)
    requires sep !in s
    ensures Split(s, sep) == [s]
  {
    if s != [] {
      assert sep !in s[1..];
      SplitNoSep(s[1..], sep);
      assert [s[0]] + s[1..] == s;
    }
  }

  /** The piece before the first separator comes off first. */
  lemma {:induction false} SplitAt(a: string, sep: char, b: string)
    requires sep !in a
    ensures Split(a + [sep] + b, sep) == [a] + Split(b, sep)
  {
    var s := a + [sep] + b;
    if a == [] {
      assert s[1..] == b;
    } else {
      assert s[1..] == a[1..] + [sep] + b;
      SplitAt(a[1..], sep, b);
      assert [a[0]] + a[1..] == a;
    }
  }

  /** No piece holds the separator. */
  lemma {:induction false} SplitPiecesNoSep(s: string, sep: char, i: nat)
    requires i < |Split(s, sep)|
    ensures sep !in Split(s, sep)[i]
  {
    if s != [] {
      var rest := Split(s[1..], sep);
      if s[0] == sep {
        if i > 0 {
          SplitPiecesNoSep(s[1..], sep, i - 1);
        }
      } else if i == 0 {
        SplitPiecesNoSep(s[1..], sep, 0);
      } else {
        SplitPiecesNoSep(s[1..], sep, i);
      }
    }
  }

  /** The text holds the separator exactly when it splits into two or more pieces. */
  lemma {:induction false} SplitCount(s: string, sep: char)
    ensures sep in s <==> |Split(s, sep)| >= 2
  {
    if s != [] {
      SplitCount(s[1..], sep);
      assert sep in s <==> s[0] == sep || sep in s[1..];
    }
  }

  // ---------------------------------------------------------------------
  // Padding, slicing, stripping
  // ---------------------------------------------------------------------

  /** `s.zfill(2)`: pad on the left with '0' to width 2; a leading '+' or
      '-' stays in front of the padding. */
  function ZFill2(s: string): (r: string)
    ensures |r| == if |s| >= 2 then |s| else 2
    ensures |s| >= 2 ==> r == s
    ensures !(|s| == 1 && (s[0] == '+' || s[0] == '-')) ==> r[|r| - |s|..] == s
  {
    if |s| >= 2 then s
    else if |s| == 1 && (s[0] == '+' || s[0] == '-') then [s[0], '0']
    else if |s| == 1 then ['0'] + s
    else "00"
  }

  /** `s[-2:]`: the last two characters, or all of a shorter text. */
  function Last2(s: string): (r: string)
    ensures |r| == if |s| < 2 then |s| else 2
    ensures r == s[|s| - |r|..]
  {
    if |s| <= 2 then s else s[|s| - 2..]
  }

  function StripLeft(s: string): (r: string)
    ensures |r| <= |s| && r == s[|s| - |r|..]
    ensures r == [] || !IsSpace(r[0])
  {
    if s != [] && IsSpace(s[0]) then StripLeft(s[1..]) else s
  }

  function StripRight(s: string): (r: string)
    ensures |r| <= |s| && r == s[..|r|]
    ensures r == [] || !IsSpace(r[|r| - 1])
  {
    if s != [] && IsSpace(s[|s| - 1]) then StripRight(s[..|s| - 1]) else s
  }

  /** `s.strip()`. */
  function Strip(s: string): string {
    StripRight(StripLeft(s))
  }

  lemma {:induction false} StripAllSpace(s: string)
    requires AllSpace(s)
    ensures Strip(s) == []
  {
    if s != [] {
      StripAllSpace(s[1..]);
    }
  }

  lemma StripUnpadded(s: string)
    requires s != [] && !IsSpace(s[0]) && !IsSpace(s[|s| - 1])
    ensures Strip(s) == s
  {
  }

  // ---------------------------------------------------------------------
  // Decimal digits, `int(s)`, `float(s)`, `str(n)`
  // ---------------------------------------------------------------------

  predicate IsDigit(c: char) {
    '0' <= c <= '9'
  }

  function DigitValue(c: char): (d: nat)
    requires IsDigit(c)
    ensures d < 10
  {
    c as int - '0' as int
  }

  function DigitChar(d: nat): (c: char)
    requires d < 10
    ensures IsDigit(c) && DigitValue(c) == d
  {
    ('0' as int + d) as char
  }

  predicate DigitsOrUnderscores(t: string) {
    forall i :: 0 <= i < |t| ==> IsDigit(t[i]) || t[i] == '_'
  }

  /** The digit runs `int()` and `float()` accept: ASCII digits, with single
      underscores allowed between two digits. */
  predicate IsDigitRun(t: string) {
    && |t| > 0
    && IsDigit(t[0])
    && IsDigit(t[|t| - 1])
    && DigitsOrUnderscores(t)
    && forall i :: 0 <= i < |t| - 1 ==> t[i] == '_' ==> IsDigit(t[i + 1])
  }

  /** The number a run of digits denotes, underscores ignored. */
  function RunValue(t: string): nat
    requires DigitsOrUnderscores(t)
  {
    if t == [] then 0
    else if t[|t| - 1] == '_' then RunValue(t[..|t| - 1])
    else 10 * RunValue(t[..|t| - 1]) + DigitValue(t[|t| - 1])
  }

  /** The number of digits in a run, underscores ignored. */
  function DigitCount(t: string): nat
  {
    if t == [] then 0
    else DigitCount(t[..|t| - 1]) + (if t[|t| - 1] == '_' then 0 else 1)
  }

  function Pow10(n: nat): (p: nat)
    ensures p >= 1
  {
    if n == 0 then 1 else 10 * Pow10(n - 1)
  }

  /** `int(s)` in base 10: surrounding whitespace, an optional sign, then a
      digit run. `None` stands for the `ValueError` Python raises. */
  function ParseInt(s: string): Option<int>
  {
    var t := Strip(s);
    if |t| > 0 && (t[0] == '+' || t[0] == '-') then
      if IsDigitRun(t[1..]) then
        var v: int := RunValue(t[1..]);
        Some(if t[0] == '-' then -v else v)
      else None
    else if IsDigitRun(t) then Some(RunValue(t))
    else None
  }

  /** Index of the first 'e' or 'E', or `|t|` when there is none. */
  function ExponentStart(t: string): (k: nat)
    ensures k <= |t|
    ensures forall i :: 0 <= i < k ==> t[i] != 'e' && t[i] != 'E'
    ensures k < |t| ==> t[k] == 'e' || t[k] == 'E'
  {
    if t == [] || t[0] == 'e' || t[0] == 'E' then 0 else 1 + ExponentStart(t[1..])
  }

  /** The part of a float literal before its exponent: `digits`,
      `digits.`, `.digits` or `digits.digits`. */
  function Mantissa(m: string): Option<real>
  {
    var parts := Split(m, '.');
    if |parts| == 1 then
      if IsDigitRun(m) then Some(RunValue(m) as real) else None
    else if |parts| == 2 then
      var whole, frac := parts[0], parts[1];
      if (whole == [] || IsDigitRun(whole)) && (frac == [] || IsDigitRun(frac))
         && (whole != [] || frac != [])
      then Some(RunValue(whole) as real + RunValue(frac) as real / Pow10(DigitCount(frac)) as real)
      else None
    else None
  }

  /** The signed digit run after 'e' or 'E'. */
  function Exponent(x: string): Option<int>
  {
    if |x| > 0 && (x[0] == '+' || x[0] == '-') then
      if IsDigitRun(x[1..]) then
        var v: int := RunValue(x[1..]);
        Some(if x[0] == '-' then -v else v)
      else None
    else if IsDigitRun(x) then Some(RunValue(x))
    else None
  }

  function Scale(e: int): (f: real)
    ensures f > 0.0
  {
    if e >= 0 then Pow10(e) as real else 1.0 / Pow10(-e) as real
  }

  function UnsignedFloat(t: string): Option<real>
  {
    var k := ExponentStart(t);
    match Mantissa(t[..k])
    case None => None
    case Some(m) =>
      if k == |t| then Some(m)
      else match Exponent(t[k + 1..])
        case None => None
        case Some(e) => Some(m * Scale(e))
  }

  /** `float(s)` on decimal notation, as an exact real; `None` stands for
      the `ValueError` Python raises. */
  function ParseFloat(s: string): Option<real>
  {
    var t := Strip(s);
    if |t| > 0 && (t[0] == '+' || t[0] == '-') then
      match UnsignedFloat(t[1..])
      case None => None
      case Some(v) => Some(if t[0] == '-' then -v else v)
    else UnsignedFloat(t)
  }

  /** `str(n)` for a natural number. */
  function NatToDecimal(n: nat): (s: string)
    ensures |s| > 0 && forall i :: 0 <= i < |s| ==> IsDigit(s[i])
  {
    if n < 10 then [DigitChar(n)] else NatToDecimal(n / 10) + [DigitChar(n % 10)]
  }

  /** Reading back a number written with `str` gives the number. */
  lemma {:induction false} DecimalRoundTrip(n: nat)
    ensures IsDigitRun(NatToDecimal(n))
    ensures RunValue(NatToDecimal(n)) == n
    decreases n
  {
    var s := NatToDecimal(n);
    if n >= 10 {
      DecimalRoundTrip(n / 10);
      assert s[..|s| - 1] == NatToDecimal(n / 10);
    }
  }

  /** `float()` of a plain digit run without a point or an exponent. */
  lemma UnsignedFloatOfDigits(d: string)
    requires IsDigitRun(d) && forall i :: 0 <= i < |d| ==> IsDigit(d[i])
    ensures UnsignedFloat(d) == Some(RunValue(d) as real)
  {
    assert '.' !in d;
    SplitNoSep(d, '.');
    assert ExponentStart(d) == |d|;
    assert d[..|d|] == d;
  }

  lemma ParseFloatOfDigits(d: string)
    requires IsDigitRun(d) && forall i :: 0 <= i < |d| ==> IsDigit(d[i])
    ensures ParseFloat(d) == Some(RunValue(d) as real)
  {
    StripUnpadded(d);
    UnsignedFloatOfDigits(d);
  }

  lemma ParseFloatOfDecimal(n: nat)
    ensures ParseFloat(NatToDecimal(n)) == Some(n as real)
  {
    DecimalRoundTrip(n);
    ParseFloatOfDigits(NatToDecimal(n));
  }

  lemma ParseIntOfDigits(d: string)
    requires d != [] && forall i :: 0 <= i < |d| ==> IsDigit(d[i])
    ensures ParseInt(d) == Some(RunValue(d) as int)
  {
    StripUnpadded(d);
    assert IsDigitRun(d);
  }

  lemma OneCharInt(s: string)
    requires |s| == 1 && ParseInt(s).Some?
    ensures IsDigit(s[0])
  {
    if IsSpace(s[0]) {
      StripAllSpace(s);
    } else {
      StripUnpadded(s);
    }
  }

  /** `int("")` raises: there is no digit to read. */
  lemma ParseIntEmpty()
    ensures ParseInt([]) == None
  {
    assert Strip([]) == [];
  }

  /** A leading zero in front of one digit does not change the digit run's value. */
  lemma PaddedRunValue(t: string)
    requires |t| == 2 && t[0] == '0' && IsDigit(t[1])
    ensures RunValue(t) == RunValue(t[1..])
  {
    assert t[1..][..0] == [] && t[..1][..0] == [];
  }

  /** ... nor the number `int()` reads from it. */
  lemma PaddedDigit(t: string)
    requires |t| == 2 && t[0] == '0' && IsDigit(t[1])
    ensures ParseInt(t) == ParseInt(t[1..])
  {
    assert forall i :: 0 <= i < |t| ==> IsDigit(t[i]);
    ParseIntOfDigits(t);
    ParseIntOfDigits(t[1..]);
    PaddedRunValue(t);
  }

  /** The value of a run of two digits. */
  lemma TwoDigitValue(t: string)
    requires |t| == 2 && IsDigit(t[0]) && IsDigit(t[1])
    ensures DigitsOrUnderscores(t) && RunValue(t) == 10 * DigitValue(t[0]) + DigitValue(t[1])
  {
    var head := t[..|t| - 1];
    assert head[..0] == [] && head[0] == t[0] && |head| == 1;
    assert RunValue(head) == DigitValue(t[0]);
  }

  /** A run of one digit. */
  lemma OneDigitValue(u: string)
    requires |u| == 1 && IsDigit(u[0])
    ensures IsDigitRun(u) && RunValue(u) == DigitValue(u[0])
  {
    assert u[..0] == [];
  }

  /** The run "0". */
  lemma ZeroRun(u: string)
    requires |u| == 1 && u[0] == '0'
    ensures (forall i :: 0 <= i < |u| ==> IsDigit(u[i])) && RunValue(u) == 0
  {
    OneDigitValue(u);
  }

  /** `int("00")` is 0. */
  lemma DoubleZeroInt(t: string)
    requires |t| == 2 && t[0] == '0' && t[1] == '0'
    ensures ParseInt(t) == Some(0)
  {
    var u := t[1..];
    ZeroRun(u);
    ParseIntOfDigits(u);
    PaddedDigit(t);
  }

  /** A one-character text `int()` rejects is not a digit. */
  lemma OneCharNotInt(t: string)
    requires |t| == 1 && ParseInt(t).None?
    ensures !IsDigit(t[0])
  {
    if IsDigit(t[0]) {
      OneDigitInt(t);
    }
  }

  /** `int()` accepts a single digit. */
  lemma OneDigitInt(t: string)
    requires |t| == 1 && IsDigit(t[0])
    ensures ParseInt(t).Some?
  {
    assert forall i :: 0 <= i < |t| ==> IsDigit(t[i]);
    ParseIntOfDigits(t);
  }

  /** `int("+0")` and `int("-0")` are 0. */
  lemma SignedZeroInt(t: string)
    requires |t| == 2 && (t[0] == '+' || t[0] == '-') && t[1] == '0'
    ensures ParseInt(t) == Some(0)
  {
    StripUnpadded(t);
    OneDigitValue(t[1..]);
  }

  /** `int("0 ")` is 0 for any trailing whitespace character. */
  lemma ZeroSpaceInt(t: string)
    requires |t| == 2 && t[0] == '0' && IsSpace(t[1])
    ensures ParseInt(t) == Some(0)
  {
    var head := t[..1];
    assert t[..|t| - 1] == head && StripRight(head) == head;
    assert Strip(t) == head;
    OneDigitValue(head);
  }

  /** `int()` rejects a '0' followed by a character that is neither a digit
      nor whitespace. */
  lemma ZeroOtherInt(t: string)
    requires |t| == 2 && t[0] == '0' && !IsDigit(t[1]) && !IsSpace(t[1])
    ensures ParseInt(t) == None
  {
    StripUnpadded(t);
  }

  /** Zero-padding a number keeps the number `int()` reads from it. */
  lemma ZFill2KeepsInt(s: string)
    requires ParseInt(s).Some?
    ensures ParseInt(ZFill2(s)) == ParseInt(s)
  {
    if |s| >= 2 {
      assert ZFill2(s) == s;
    } else if |s| == 1 {
      OneCharInt(s);
      var z := ZFill2(s);
      assert z == ['0'] + s;
      assert z[1..] == s;
      PaddedDigit(z);
    } else {
      ParseIntEmpty();
    }
  }

  // ---------------------------------------------------------------------
  // `s.lower() == word` for a lower-case ASCII word
  // ---------------------------------------------------------------------

  /** `c.lower()` for every character whose lower case is one ASCII letter:
      'A'..'Z' and U+212A KELVIN SIGN (which lowers to 'k'). Every other
      character is left as it is, which cannot make it equal to an ASCII
      lower-case letter. */
  function LowerChar(c: char): char {
    if 'A' <= c <= 'Z' then (c as int + 32) as char
    else if c == '\U{212A}' then 'k'
    else c
  }

  /** `s.lower() == word`, for `word` made of lower-case ASCII letters. */
  predicate LowerEquals(s: string, word: string) {
    |s| == |word| && forall i :: 0 <= i < |s| ==> LowerChar(s[i]) == word[i]
  }
}
