/** Text as the Python sources treat it: folding case, stripping space, and
    decimal numbers. */
module Text {
  /** What `float()` makes of a text. */
  datatype FloatText = Finite(value: real) | PosInf | NegInf | NaN | NotAFloat

  predicate IsDigit(c: char) {
    '0' <= c <= '9'
  }

  predicate AllDigits(s: string) {
    forall i :: 0 <= i < |s| ==> IsDigit(s[i])
  }

  function LowerChar(c: char): char {
    if 'A' <= c <= 'Z' then (c as int + 32) as char else c
  }

  /** `str.lower` on ASCII text. */
  function Lower(s: string): (r: string)
    ensures |r| == |s|
  {
    seq(|s|, i requires 0 <= i < |s| => LowerChar(s[i]))
  }

  /** Two texts fold alike exactly when they are the same but for the case
      of ASCII letters. */
  lemma LowerExactly(a: string, b: string)
    ensures Lower(a) == Lower(b) <==> |a| == |b| && forall i :: 0 <= i < |a| ==> IsSameLetter(a[i], b[i])
  {
    if Lower(a) == Lower(b) {
      forall i | 0 <= i < |a| ensures IsSameLetter(a[i], b[i]) {
        assert Lower(a)[i] == Lower(b)[i];
      }
    }
  }

  predicate IsSameLetter(c: char, d: char) {
    || c == d
    || ('A' <= c <= 'Z' && d as int - c as int == 'a' as int - 'A' as int)
    || ('A' <= d <= 'Z' && c as int - d as int == 'a' as int - 'A' as int)
  }

  /** The characters `str.strip` removes. */
  predicate IsSpace(c: char) {
    || '\t' <= c <= '\r'
    || '\U{1c}' <= c <= ' '
    || c == '\U{85}' || c == '\U{a0}' || c == '\U{1680}'
    || '\U{2000}' <= c <= '\U{200a}'
    || c == '\U{2028}' || c == '\U{2029}' || c == '\U{202f}' || c == '\U{205f}' || c == '\U{3000}'
  }

  function StripLeft(s: string): (r: string)
    ensures |r| <= |s| && s[|s| - |r|..] == r
    ensures r != [] ==> !IsSpace(r[0])
  {
    if s != [] && IsSpace(s[0]) then StripLeft(s[1..]) else s
  }

  function StripRight(s: string): (r: string)
    ensures r <= s
    ensures r != [] ==> !IsSpace(r[|r| - 1])
  {
    if s != [] && IsSpace(s[|s| - 1]) then StripRight(s[..|s| - 1]) else s
  }

  function Strip(s: string): (r: string)
    ensures r != [] ==> !IsSpace(r[0]) && !IsSpace(r[|r| - 1])
    ensures |r| <= |s|
  {
    var left := StripLeft(s);
    var r := StripRight(left);
    assert r != [] ==> r[0] == left[0];
    r
  }

  /** Text with no space at either end is its own stripped form. */
  lemma StripsToItself(s: string)
    requires s != [] ==> !IsSpace(s[0]) && !IsSpace(s[|s| - 1])
    ensures Strip(s) == s
  {
  }

  predicate IsBlank(s: string) {
    forall i :: 0 <= i < |s| ==> IsSpace(s[i])
  }

  /** What is stripped from either end is space, and nothing else goes. */
  lemma StrippedIsSpace(s: string)
    ensures var k := |s| - |StripLeft(s)|;
            && k + |Strip(s)| <= |s|
            && Strip(s) == s[k..k + |Strip(s)|]
            && IsBlank(s[..k]) && IsBlank(s[k + |Strip(s)|..])
  {
    hide IsBlank, IsSpace, StripLeft, StripRight;
    var left := StripLeft(s);
    LeftIsSpace(s);
    RightIsSpace(left);
    Middle(s, left, StripRight(left));
  }

  lemma Middle(s: string, left: string, middle: string)
    requires |left| <= |s| && left == s[|s| - |left|..] && middle <= left
    ensures var k := |s| - |left|;
            && middle == s[k..k + |middle|]
            && left[|middle|..] == s[k + |middle|..]
  {
  }

  lemma {:induction false} LeftIsSpace(s: string)
    ensures IsBlank(s[..|s| - |StripLeft(s)|])
  {
    if s != [] && IsSpace(s[0]) {
      LeftIsSpace(s[1..]);
      assert s[..|s| - |StripLeft(s)|] == [s[0]] + s[1..][..|s| - 1 - |StripLeft(s)|];
    }
  }

  lemma {:induction false} RightIsSpace(s: string)
    ensures IsBlank(s[|StripRight(s)|..])
  {
    if s != [] && IsSpace(s[|s| - 1]) {
      RightIsSpace(s[..|s| - 1]);
      assert s[|StripRight(s)|..] == s[..|s| - 1][|StripRight(s)|..] + [s[|s| - 1]];
    }
  }

  // ---------------------------------------------------------------------
  // Splitting and joining
  // ---------------------------------------------------------------------

  /** `str.split` on one character: always at least one piece. */
  function Split(s: string, separator: char): (pieces: seq<string>)
    ensures |pieces| >= 1
  {
    if s == "" then [""]
    else
      var rest := Split(s[1..], separator);
      if s[0] == separator then [""] + rest else [[s[0]] + rest[0]] + rest[1..]
  }

  /** `separator.join(pieces)` for one character. */
  function Join(pieces: seq<string>, separator: char): string {
    if pieces == [] then "" else if |pieces| == 1 then pieces[0]
    else pieces[0] + [separator] + Join(pieces[1..], separator)
  }

  lemma {:induction false} SplitOfPiece(piece: string, rest: string, separator: char)
    requires separator !in piece
    ensures Split(piece, separator) == [piece]
    ensures Split(piece + [separator] + rest, separator) == [piece] + Split(rest, separator)
  {
    var s := piece + [separator] + rest;
    if piece == "" {
      assert s[1..] == rest;
    } else {
      assert s[1..] == piece[1..] + [separator] + rest;
      SplitOfPiece(piece[1..], rest, separator);
      assert piece == [piece[0]] + piece[1..];
    }
  }

  lemma {:induction false} PiecesAreFree(s: string, separator: char)
    ensures forall piece :: piece in Split(s, separator) ==> separator !in piece
  {
    if s != "" {
      var rest := Split(s[1..], separator);
      PiecesAreFree(s[1..], separator);
      assert rest[0] in rest;
      assert forall piece :: piece in rest[1..] ==> piece in rest;
    }
  }

  /** Splitting what was joined gives the pieces back if and only if none
      holds the separator. */
  lemma SplitOfJoinExactly(pieces: seq<string>, separator: char)
    requires pieces != []
    ensures Split(Join(pieces, separator), separator) == pieces <==>
            forall piece :: piece in pieces ==> separator !in piece
  {
    PiecesAreFree(Join(pieces, separator), separator);
    if forall piece :: piece in pieces ==> separator !in piece {
      SplitOfJoin(pieces, separator);
    }
  }

  lemma {:induction false} SplitOfJoin(pieces: seq<string>, separator: char)
    requires pieces != [] && forall piece :: piece in pieces ==> separator !in piece
    ensures Split(Join(pieces, separator), separator) == pieces
  {
    if |pieces| == 1 {
      SplitOfPiece(pieces[0], "", separator);
    } else {
      SplitOfJoin(pieces[1..], separator);
      SplitOfPiece(pieces[0], Join(pieces[1..], separator), separator);
      assert pieces == [pieces[0]] + pieces[1..];
    }
  }

  // ---------------------------------------------------------------------
  // Decimal numbers
  // ---------------------------------------------------------------------

  function DigitOf(n: nat): (c: char)
    requires n < 10
    ensures IsDigit(c)
  {
    '0' + n as char
  }

  function DigitValue(c: char): (n: nat)
    requires IsDigit(c)
    ensures n < 10
  {
    c as int - '0' as int
  }

  /** `str(n)`. */
  function Decimal(n: nat): (s: string)
    ensures s != [] && AllDigits(s)
  {
    if n < 10 then [DigitOf(n)] else Decimal(n / 10) + [DigitOf(n % 10)]
  }

  /** `int(s)` on a run of digits; leading zeros are allowed. */
  function Value(s: string): nat
    requires AllDigits(s)
  {
    if s == [] then 0 else 10 * Value(s[..|s| - 1]) + DigitValue(s[|s| - 1])
  }

  lemma {:induction false} ValueOfDecimal(n: nat)
    ensures Value(Decimal(n)) == n
  {
    if n >= 10 {
      ValueOfDecimal(n / 10);
      assert Decimal(n)[..|Decimal(n)| - 1] == Decimal(n / 10);
    } else {
      assert Decimal(n)[..0] == "";
    }
  }

  lemma DecimalInjective(m: nat, n: nat)
    requires Decimal(m) == Decimal(n)
    ensures m == n
  {
    ValueOfDecimal(m);
    ValueOfDecimal(n);
  }

  /** `f"{n:0{width}d}"` for a number that fits the width. */
  function Padded(n: nat, width: nat): (s: string)
    ensures |s| == width && AllDigits(s)
  {
    if width == 0 then "" else Padded(n / 10, width - 1) + [DigitOf(n % 10)]
  }

  function Power10(width: nat): nat {
    if width == 0 then 1 else 10 * Power10(width - 1)
  }

  lemma {:induction false} ValueOfPadded(n: nat, width: nat)
    requires n < Power10(width)
    ensures Value(Padded(n, width)) == n
  {
    if width > 0 {
      ValueOfPadded(n / 10, width - 1);
      assert Padded(n, width)[..width - 1] == Padded(n / 10, width - 1);
    }
  }

  lemma LastDigit(front: nat, last: nat)
    requires last < 10
    ensures (10 * front + last) / 10 == front && (10 * front + last) % 10 == last
  {
  }

  lemma SameDigit(c: char)
    requires IsDigit(c)
    ensures DigitOf(DigitValue(c)) == c
  {
  }

  lemma PowerStep(width: nat)
    ensures Power10(width + 1) == 10 * Power10(width)
  {
  }

  lemma {:induction false} PaddedOfValue(s: string)
    requires AllDigits(s)
    ensures Value(s) < Power10(|s|)
    ensures Padded(Value(s), |s|) == s
  {
    if s != [] {
      hide DigitOf, DigitValue, Power10;
      var front, c := s[..|s| - 1], s[|s| - 1];
      PaddedOfValue(front);
      LastDigit(Value(front), DigitValue(c));
      SameDigit(c);
      PowerStep(|front|);
      assert Value(s) == 10 * Value(front) + DigitValue(c);
      assert Padded(Value(s), |front| + 1) == Padded(Value(s) / 10, |front|) + [DigitOf(Value(s) % 10)];
      hide Value, Padded, AllDigits;
      assert s == front + [c];
    }
  }
}
