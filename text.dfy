/** String helpers shared by the Python and JavaScript parts of the model:
    whitespace trimming and splitting, joining, decimal rendering and parsing,
    zero padding and per-character case mapping. */
module Text {
  import opened Common

  /** The language whose string functions a piece of the program uses: the
      two disagree on which characters count as whitespace. */
  datatype Runtime = Python | JavaScript

  /** Whitespace shared by Python's `str.isspace()` and JavaScript's
      `String.prototype.trim()`: the controls U+0009..U+000D, the space
      separators (category Zs) and the line and paragraph separators. */
  predicate IsCommonSpace(c: char) {
    ('\t' <= c <= '\r') || c == ' ' || c == '\U{00A0}' || c == '\U{1680}'
    || ('\U{2000}' <= c <= '\U{200A}') || c == '\U{2028}' || c == '\U{2029}'
    || c == '\U{202F}' || c == '\U{205F}' || c == '\U{3000}'
  }

  /** Python's `str.isspace()`, the set that `str.strip()`, `str.split()` and
      the regular-expression class `\s` use: the common set plus the
      information separators U+001C..U+001F and NEXT LINE U+0085. */
  predicate IsWhitespace(c: char) {
    IsCommonSpace(c) || ('\U{001C}' <= c <= '\U{001F}') || c == '\U{0085}'
  }

  /** The WhiteSpace and LineTerminator characters that JavaScript's
      `String.prototype.trim()` removes: the common set plus the byte order
      mark U+FEFF. */
  predicate IsJsWhitespace(c: char) {
    IsCommonSpace(c) || c == '\U{FEFF}'
  }

  /** Whitespace as the given runtime's trim sees it. */
  predicate IsBlank(rt: Runtime, c: char) {
    match rt
    case Python => IsWhitespace(c)
    case JavaScript => IsJsWhitespace(c)
  }

  predicate IsDigit(c: char) { '0' <= c <= '9' }

  predicate AllDigits(s: string) { forall i :: 0 <= i < |s| ==> IsDigit(s[i]) }

  predicate NoWhitespace(s: string) { forall i :: 0 <= i < |s| ==> !IsWhitespace(s[i]) }

  // ---------------------------------------------------------------- trimming

  /** Drops the leading run of whitespace. */
  function TrimLeft(s: string, rt: Runtime): (r: string)
    ensures |r| <= |s| && r == s[|s| - |r|..]
    ensures r == [] || !IsBlank(rt, r[0])
    ensures forall i :: 0 <= i < |s| - |r| ==> IsBlank(rt, s[i])
    decreases |s|
  {
    if s != [] && IsBlank(rt, s[0]) then
      var r := TrimLeft(s[1..], rt);
      assert s[1..][|s| - 1 - |r|..] == s[|s| - |r|..];
      r
    else s
  }

  /** Drops the trailing run of whitespace. */
  function TrimRight(s: string, rt: Runtime): (r: string)
    ensures |r| <= |s| && forall i :: 0 <= i < |r| ==> r[i] == s[i]
    ensures r == [] || !IsBlank(rt, r[|r| - 1])
    ensures forall i :: |r| <= i < |s| ==> IsBlank(rt, s[i])
    decreases |s|
  {
    if s != [] && IsBlank(rt, s[|s| - 1]) then TrimRight(s[..|s| - 1], rt) else s
  }

  /** Python `s.strip()` and JavaScript `s.trim()`, each with its own
      whitespace. */
  function Trim(s: string, rt: Runtime): (r: string)
    ensures r == [] || (!IsBlank(rt, r[0]) && !IsBlank(rt, r[|r| - 1]))
  {
    var l := TrimLeft(s, rt);
    var r := TrimRight(l, rt);
    assert r != [] ==> r[0] == l[0];
    r
  }

  /** JavaScript `s.length`: the number of UTF-16 code units, two for each
      character outside the Basic Multilingual Plane. */
  function Utf16Length(s: string): (n: nat)
    ensures |s| <= n <= 2 * |s|
    ensures (forall i :: 0 <= i < |s| ==> s[i] as int < 0x1_0000) ==> n == |s|
    decreases |s|
  {
    if s == [] then 0 else (if s[0] as int < 0x1_0000 then 1 else 2) + Utf16Length(s[1..])
  }

  // --------------------------------------------------------- splitting words

  /** The longest prefix of s without whitespace. */
  function TakeWord(s: string): (w: string)
    ensures |w| <= |s| && w == s[..|w|] && NoWhitespace(w)
    ensures |w| < |s| ==> IsWhitespace(s[|w|])
    decreases |s|
  {
    if s == [] || IsWhitespace(s[0]) then [] else [s[0]] + TakeWord(s[1..])
  }

  /** Python `s.split()` with no argument: the maximal runs of non-whitespace. */
  function Words(s: string): (ws: seq<string>)
    ensures forall i :: 0 <= i < |ws| ==> ws[i] != [] && NoWhitespace(ws[i])
    decreases |s|
  {
    if s == [] then []
    else if IsWhitespace(s[0]) then Words(s[1..])
    else
      var w := TakeWord(s);
      [w] + Words(s[|w|..])
  }

  /** Python `re.sub(r'\s+', ' ', s)`: every whitespace run becomes one space. */
  function CollapseWhitespace(s: string): string
    decreases |s|
  {
    if s == [] then []
    else if IsWhitespace(s[0]) then " " + CollapseWhitespace(TrimLeft(s, Python))
    else
      var w := TakeWord(s);
      w + CollapseWhitespace(s[|w|..])
  }

  lemma {:induction false} WordsTrimLeft(s: string)
    ensures Words(TrimLeft(s, Python)) == Words(s)
    decreases |s|
  {
    if s != [] && IsWhitespace(s[0]) { WordsTrimLeft(s[1..]); }
  }

  lemma {:induction false} TakeWordOfConcat(w: string, t: string)
    requires NoWhitespace(w)
    requires t == [] || IsWhitespace(t[0])
    ensures TakeWord(w + t) == w
    decreases |w|
  {
    if w != [] {
      assert (w + t)[0] == w[0] && (w + t)[1..] == w[1..] + t;
      TakeWordOfConcat(w[1..], t);
    }
  }

  lemma {:induction false} CollapseStart(s: string)
    requires s == [] || IsWhitespace(s[0])
    ensures CollapseWhitespace(s) == [] || CollapseWhitespace(s)[0] == ' '
  {
  }

  /** Collapsing whitespace runs does not change the word list. */
  lemma {:induction false} WordsCollapse(s: string)
    ensures Words(CollapseWhitespace(s)) == Words(s)
    decreases |s|
  {
    if s == [] {
    } else if IsWhitespace(s[0]) {
      var t := TrimLeft(s, Python);
      WordsCollapse(t);
      WordsTrimLeft(s);
      var c := " " + CollapseWhitespace(t);
      assert c[1..] == CollapseWhitespace(t);
    } else {
      var w := TakeWord(s);
      var rest := s[|w|..];
      WordsCollapse(rest);
      CollapseStart(rest);
      var y := CollapseWhitespace(rest);
      TakeWordOfConcat(w, y);
      assert (w + y)[|w|..] == y;
      assert (w + y)[0] == s[0];
    }
  }

  lemma {:induction false} WordsTrailingWhitespace(s: string, c: char)
    requires IsWhitespace(c)
    ensures Words(s + [c]) == Words(s)
    decreases |s|
  {
    if s == [] {
      assert Words([c]) == Words([]);
    } else if IsWhitespace(s[0]) {
      assert (s + [c])[1..] == s[1..] + [c];
      WordsTrailingWhitespace(s[1..], c);
    } else {
      var w := TakeWord(s);
      var rest := s[|w|..];
      if rest == [] {
        assert s == w;
        TakeWordOfConcat(w, [c]);
        assert (s + [c])[|w|..] == [c];
        assert Words([c]) == [];
      } else {
        TakeWordOfConcat(w, rest + [c]);
        TakeWordOfConcat(w, rest);
        assert s + [c] == w + (rest + [c]);
        assert (s + [c])[|w|..] == rest + [c];
        WordsTrailingWhitespace(rest, c);
      }
    }
  }

  lemma {:induction false} WordsTrimRight(s: string)
    ensures Words(TrimRight(s, Python)) == Words(s)
    decreases |s|
  {
    if s != [] && IsWhitespace(s[|s| - 1]) {
      var p := s[..|s| - 1];
      assert s == p + [s[|s| - 1]];
      WordsTrailingWhitespace(p, s[|s| - 1]);
      WordsTrimRight(p);
    }
  }

  lemma WordsTrim(s: string)
    ensures Words(Trim(s, Python)) == Words(s)
  {
    WordsTrimLeft(s);
    WordsTrimRight(TrimLeft(s, Python));
  }

  // ------------------------------------------------------- joining, splitting

  /** Python `sep.join(parts)` and JavaScript `parts.join(sep)`. */
  function Join(parts: seq<string>, sep: string): string
  {
    if |parts| == 0 then ""
    else if |parts| == 1 then parts[0]
    else parts[0] + sep + Join(parts[1..], sep)
  }

  /** Python/JavaScript `s.split(c)` for a one-character separator: always at
      least one part, empty parts kept. */
  function Split(s: string, c: char): (r: seq<string>)
    ensures |r| >= 1
    decreases |s|
  {
    if s == [] then [""]
    else if s[0] == c then [""] + Split(s[1..], c)
    else
      var rest := Split(s[1..], c);
      [[s[0]] + rest[0]] + rest[1..]
  }

  lemma {:induction false} SplitNoSeparator(w: string, c: char)
    requires c !in w
    ensures Split(w, c) == [w]
    decreases |w|
  {
    if w != [] {
      SplitNoSeparator(w[1..], c);
      assert w == [w[0]] + w[1..];
    }
  }

  lemma {:induction false} SplitAfterWord(w: string, c: char, t: string)
    requires c !in w
    ensures Split(w + [c] + t, c) == [w] + Split(t, c)
    decreases |w|
  {
    if w == [] {
      assert ([c] + t)[1..] == t;
    } else {
      var u := w + [c] + t;
      assert u[0] == w[0] && u[0] != c;
      assert u[1..] == w[1..] + [c] + t;
      SplitAfterWord(w[1..], c, t);
      assert w == [w[0]] + w[1..];
    }
  }

  /** Splitting a join on a separator the parts avoid gives the parts back. */
  lemma {:induction false} SplitJoin(parts: seq<string>, c: char)
    requires |parts| >= 1
    requires forall i :: 0 <= i < |parts| ==> c !in parts[i]
    ensures Split(Join(parts, [c]), c) == parts
    decreases |parts|
  {
    if |parts| == 1 {
      SplitNoSeparator(parts[0], c);
    } else {
      SplitJoin(parts[1..], c);
      SplitAfterWord(parts[0], c, Join(parts[1..], [c]));
    }
  }

  // ---------------------------------------------------------------- numbers

  function DigitChar(d: nat): char
    requires d < 10
  {
    "0123456789"[d]
  }

  function DigitValue(c: char): nat
    requires IsDigit(c)
  {
    (c as int - '0' as int) as nat
  }

  /** Decimal rendering of a natural number: Python `str(n)`, JavaScript `n.toString()`. */
  function NatToString(n: nat): (s: string)
    ensures |s| >= 1 && AllDigits(s)
    ensures |s| > 1 ==> s[0] != '0'
    decreases n
  {
    if n < 10 then [DigitChar(n)] else NatToString(n / 10) + [DigitChar(n % 10)]
  }

  /** Value of a string of decimal digits (the digits-only case of Python `int(s)`). */
  function ParseNat(s: string): nat
    requires AllDigits(s)
    decreases |s|
  {
    if s == [] then 0 else 10 * ParseNat(s[..|s| - 1]) + DigitValue(s[|s| - 1])
  }

  /** The value of a sign character applied to a magnitude. */
  function Signed(sign: char, n: nat): int {
    if sign == '-' then -(n as int) else n
  }

  lemma {:induction false} ParseNatToString(n: nat)
    ensures ParseNat(NatToString(n)) == n
    decreases n
  {
    var s := NatToString(n);
    if n >= 10 {
      ParseNatToString(n / 10);
      assert s[..|s| - 1] == NatToString(n / 10);
    }
  }

  /** Python `int(s)` on a string: surrounding whitespace is ignored, one
      optional sign, then at least one decimal digit; anything else is the
      `ValueError` case, `None`. */
  function ParseInt(s: string): (r: Option<int>)
  {
    var t := Trim(s, Python);
    if |t| >= 2 && (t[0] == '-' || t[0] == '+') && AllDigits(t[1..]) then
      Some(Signed(t[0], ParseNat(t[1..])))
    else if |t| >= 1 && AllDigits(t) then
      Some(ParseNat(t))
    else None
  }

  /** A string that neither starts nor ends with whitespace is its own trim. */
  lemma TrimUnpadded(s: string, rt: Runtime)
    requires |s| >= 1 && !IsBlank(rt, s[0]) && !IsBlank(rt, s[|s| - 1])
    ensures Trim(s, rt) == s
  {
  }

  /** Digits with nothing around them parse as themselves. */
  lemma ParseIntUnsigned(d: string)
    requires |d| >= 1 && AllDigits(d)
    ensures ParseInt(d) == Some(ParseNat(d))
  {
    assert IsDigit(d[0]) && IsDigit(d[|d| - 1]);
    TrimUnpadded(d, Python);
  }

  /** `int(str(n)) == n`. */
  lemma ParseIntOfNat(n: nat)
    ensures ParseInt(NatToString(n)) == Some(n)
  {
    var d := NatToString(n);
    ParseIntUnsigned(d);
    ParseNatToString(n);
  }

  /** JavaScript `s.padStart(2, '0')`. */
  function PadStart2(s: string): (r: string)
    ensures |s| >= 2 ==> r == s
    ensures |s| < 2 ==> |r| == 2 && r[2 - |s|..] == s
  {
    if |s| >= 2 then s else seq(2 - |s|, _ => '0') + s
  }

  /** padStart(2, '0') of a number below 100 has two characters. */
  lemma PadStart2Length(n: nat)
    requires n < 100
    ensures |PadStart2(NatToString(n))| == 2
  {
    if n >= 10 {
      assert |NatToString(n / 10)| == 1;
    }
  }

  /** Two-digit decimal rendering of a number below 100, as padStart(2, '0') of its string. */
  lemma PadStart2Value(n: nat)
    requires n < 100
    ensures |PadStart2(NatToString(n))| == 2
    ensures AllDigits(PadStart2(NatToString(n)))
    ensures ParseNat(PadStart2(NatToString(n))) == n
  {
    var s := NatToString(n);
    ParseNatToString(n);
    if n < 10 {
      var p := PadStart2(s);
      assert p == ['0', DigitChar(n)];
      assert p[..1] == ['0'];
      assert ParseNat(p[..1]) == 10 * ParseNat([]) + 0;
    } else {
      assert |NatToString(n / 10)| == 1;
    }
  }

  // ------------------------------------------------------------ case mapping

  /** Upper-casing of one character for ASCII and basic Cyrillic letters
      (Python str.upper / JavaScript toUpperCase restricted to those ranges). */
  function ToUpperChar(c: char): char
  {
    if 'a' <= c <= 'z' then (c as int - 32) as char
    else if 'а' <= c <= 'я' then (c as int - 32) as char
    else if c == 'ё' then 'Ё'
    else c
  }

  function ToLowerChar(c: char): char
  {
    if 'A' <= c <= 'Z' then (c as int + 32) as char
    else if 'А' <= c <= 'Я' then (c as int + 32) as char
    else if c == 'Ё' then 'ё'
    else c
  }

  function ToUpper(s: string): (r: string)
    ensures |r| == |s| && forall i :: 0 <= i < |s| ==> r[i] == ToUpperChar(s[i])
  {
    seq(|s|, i requires 0 <= i < |s| => ToUpperChar(s[i]))
  }

  function ToLower(s: string): (r: string)
    ensures |r| == |s| && forall i :: 0 <= i < |s| ==> r[i] == ToLowerChar(s[i])
  {
    seq(|s|, i requires 0 <= i < |s| => ToLowerChar(s[i]))
  }

  lemma CaseKeepsWhitespace(c: char)
    ensures IsWhitespace(ToUpperChar(c)) <==> IsWhitespace(c)
    ensures IsWhitespace(ToLowerChar(c)) <==> IsWhitespace(c)
  {
  }

  /** Code points of a string, the key by which Python and JavaScript compare strings. */
  function CodePoints(s: string): (r: seq<int>)
    ensures |r| == |s| && forall i :: 0 <= i < |s| ==> r[i] == s[i] as int
  {
    seq(|s|, i requires 0 <= i < |s| => s[i] as int)
  }

  /** Concatenation of many strings. */
  function Concat(parts: seq<string>): string
  {
    if parts == [] then "" else parts[0] + Concat(parts[1..])
  }
}
