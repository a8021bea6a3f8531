/** String literals in the directory's filters (`cordware/graph.py`). */
module ODataLiteral {
  import opened Wrappers

  const QUOTE: char := '\''

  /** `replace("'", "''")`. */
  function Doubled(value: string): string {
    if value == "" then ""
    else (if value[0] == QUOTE then [QUOTE, QUOTE] else [value[0]]) + Doubled(value[1..])
  }

  function OdataString(value: string): string {
    [QUOTE] + Doubled(value) + [QUOTE]
  }

  /** Reading what follows an opening quote: a doubled quote is one quote, a
      single one ends the literal. Gives the value and what is left. */
  function ReadBody(s: string): (read: Option<(string, string)>)
    ensures read.Some? ==> |read.value.1| < |s|
  {
    if s == "" then None
    else if s[0] != QUOTE then Prefixed(s[0], ReadBody(s[1..]))
    else if |s| > 1 && s[1] == QUOTE then Prefixed(QUOTE, ReadBody(s[2..]))
    else Some(("", s[1..]))
  }

  function Prefixed(c: char, read: Option<(string, string)>): Option<(string, string)> {
    match read
    case None => None
    case Some((value, rest)) => Some(([c] + value, rest))
  }

  function ReadLiteral(s: string): Option<(string, string)> {
    if s == "" || s[0] != QUOTE then None else ReadBody(s[1..])
  }

  /** The text after a literal does not run on with a quote. */
  predicate Separates(rest: string) {
    rest == "" || rest[0] != QUOTE
  }

  lemma {:induction false} BodyReadsBack(value: string, rest: string)
    requires Separates(rest)
    ensures ReadBody(Doubled(value) + [QUOTE] + rest) == Some((value, rest))
  {
    var s := Doubled(value) + [QUOTE] + rest;
    if value == "" {
      assert s[1..] == rest;
    } else {
      BodyReadsBack(value[1..], rest);
      var tail := Doubled(value[1..]) + [QUOTE] + rest;
      assert s[if value[0] == QUOTE then 2 else 1..] == tail;
      assert value == [value[0]] + value[1..];
    }
  }

  lemma {:induction false} ReadBodyIsDoubled(s: string)
    requires ReadBody(s).Some?
    ensures var (value, rest) := ReadBody(s).value;
            s == Doubled(value) + [QUOTE] + rest && Separates(rest)
    decreases |s|
  {
    if s[0] != QUOTE || (|s| > 1 && s[1] == QUOTE) {
      var skip := if s[0] == QUOTE then 2 else 1;
      ReadBodyIsDoubled(s[skip..]);
      var (value, rest) := ReadBody(s).value;
      assert value[1..] == ReadBody(s[skip..]).value.0;
      assert s == s[..skip] + s[skip..];
    } else {
      assert s == [QUOTE] + s[1..];
    }
  }

  /** A literal is read as exactly the value it was made from, wherever it
      stands before text that separates, and nothing else is read so: no
      address can end its own literal early. */
  lemma LiteralExact(s: string, value: string, rest: string)
    ensures ReadLiteral(s) == Some((value, rest)) <==> s == OdataString(value) + rest && Separates(rest)
  {
    if s == OdataString(value) + rest && Separates(rest) {
      BodyReadsBack(value, rest);
      assert s[1..] == Doubled(value) + [QUOTE] + rest;
    }
    if ReadLiteral(s) == Some((value, rest)) {
      ReadBodyIsDoubled(s[1..]);
      assert s == [QUOTE] + s[1..];
    }
  }
}
