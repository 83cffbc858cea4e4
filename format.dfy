/**
 * The part of Python's `str.format` that shorthand templates use: positional
 * one-digit placeholders `{0}` … `{9}` and the escapes `{{` and `}}`. A format
 * string is parsed into pieces; rendering replaces placeholder `i` by
 * `{{` + field name i + `}}`, which is how `new_model` turns `{i}` into an
 * Anki field reference.
 */
module Format {
  import opened Wrappers
  import opened Text
  import opened Errors

  datatype Piece = Lit(c: char) | Slot(index: nat)

  function Prepend(p: Piece, r: Result<seq<Piece>, Error>): Result<seq<Piece>, Error>
  {
    if r.Ok? then Ok([p] + r.value) else r
  }

  predicate SmallSlots(ps: seq<Piece>)
  {
    forall i :: 0 <= i < |ps| ==> ps[i].Slot? ==> ps[i].index < 10
  }

  /** Splits a format string into literal characters and placeholders; a stray brace is an error. */
  function ParseFormat(s: string): (r: Result<seq<Piece>, Error>)
    ensures r.Err? ==> r.error == BadFormat
    ensures r.Ok? ==> SmallSlots(r.value) && |r.value| <= |s|
  {
    if |s| == 0 then Ok([])
    else if s[0] == '{' then
      if |s| >= 2 && s[1] == '{' then Prepend(Lit('{'), ParseFormat(s[2..]))
      else if |s| >= 3 && IsDigit(s[1]) && s[2] == '}' then Prepend(Slot(DigitValue(s[1])), ParseFormat(s[3..]))
      else Err(BadFormat)
    else if s[0] == '}' then
      if |s| >= 2 && s[1] == '}' then Prepend(Lit('}'), ParseFormat(s[2..])) else Err(BadFormat)
    else Prepend(Lit(s[0]), ParseFormat(s[1..]))
  }

  function UnparsePiece(p: Piece): string
    requires p.Slot? ==> p.index < 10
  {
    match p
    case Lit(c) => if c == '{' then "{{" else if c == '}' then "}}" else [c]
    case Slot(i) => "{" + [DigitChar(i)] + "}"
  }

  /** Writes pieces back as a format string. */
  function Unparse(ps: seq<Piece>): string
    requires SmallSlots(ps)
  {
    if |ps| == 0 then "" else UnparsePiece(ps[0]) + Unparse(ps[1..])
  }

  /** Parsing loses nothing: the pieces print back to the format string. */
  lemma {:induction false} ParseThenUnparse(s: string)
    requires ParseFormat(s).Ok?
    ensures SmallSlots(ParseFormat(s).value) && Unparse(ParseFormat(s).value) == s
  {
    if |s| > 0 {
      var n: nat;
      var p: Piece;
      if s[0] == '{' && s[1] == '{' {
        n, p := 2, Lit('{');
      } else if s[0] == '{' {
        n, p := 3, Slot(DigitValue(s[1]));
      } else if s[0] == '}' {
        n, p := 2, Lit('}');
      } else {
        n, p := 1, Lit(s[0]);
      }
      assert ParseFormat(s) == Prepend(p, ParseFormat(s[n..]));
      PieceText(s, n, p);
      ParseThenUnparse(s[n..]);
      var rest := ParseFormat(s[n..]).value;
      assert ([p] + rest)[1..] == rest;
    }
  }

  /** The text of the first parsed piece is the prefix the parser consumed. */
  lemma PieceText(s: string, n: nat, p: Piece)
    requires 0 < n <= |s|
    requires || (n == 2 && s[0] == '{' && s[1] == '{' && p == Lit('{'))
             || (n == 3 && s[0] == '{' && IsDigit(s[1]) && s[2] == '}' && p == Slot(DigitValue(s[1])))
             || (n == 2 && s[0] == '}' && s[1] == '}' && p == Lit('}'))
             || (n == 1 && s[0] != '{' && s[0] != '}' && p == Lit(s[0]))
    ensures (p.Slot? ==> p.index < 10) && UnparsePiece(p) + s[n..] == s
  {
    assert s[..n] + s[n..] == s;
  }

  lemma ParsePieceThenRest(p: Piece, rest: string)
    requires p.Slot? ==> p.index < 10
    ensures ParseFormat(UnparsePiece(p) + rest) == Prepend(p, ParseFormat(rest))
  {
    var s := UnparsePiece(p) + rest;
    match p
    case Lit(c) =>
      if c == '{' || c == '}' { assert s[2..] == rest; } else { assert s[1..] == rest; }
    case Slot(i) =>
      assert s[3..] == rest;
  }

  /** Printed pieces parse back to the same pieces. */
  lemma {:induction false} UnparseThenParse(ps: seq<Piece>)
    requires SmallSlots(ps)
    ensures ParseFormat(Unparse(ps)) == Ok(ps)
  {
    if |ps| > 0 {
      UnparseThenParse(ps[1..]);
      ParsePieceThenRest(ps[0], Unparse(ps[1..]));
      assert [ps[0]] + ps[1..] == ps;
    }
  }

  /** Every placeholder names an existing field. */
  predicate FieldsCover(ps: seq<Piece>, fields: seq<string>)
  {
    forall i :: 0 <= i < |ps| ==> ps[i].Slot? ==> ps[i].index < |fields|
  }

  /** Renders pieces with field names; a placeholder past the last field is an error. */
  function Render(ps: seq<Piece>, fields: seq<string>): (r: Result<string, Error>)
    ensures r.Ok? <==> FieldsCover(ps, fields)
    ensures r.Err? ==> r.error == BadFormat
  {
    if |ps| == 0 then Ok("")
    else
      var head: Result<string, Error> :=
        match ps[0]
        case Lit(c) => Ok([c])
        case Slot(i) => if i < |fields| then Ok("{{" + fields[i] + "}}") else Err(BadFormat);
      var tail := Render(ps[1..], fields);
      if head.Err? then head else if tail.Err? then tail else Ok(head.value + tail.value)
  }

  /** `template.format(*('{{%s}}' % f for f in fields))`, restricted to one-digit positional fields. */
  function Substitute(s: string, fields: seq<string>): (r: Result<string, Error>)
    ensures r.Ok? <==> ParseFormat(s).Ok? && FieldsCover(ParseFormat(s).value, fields)
    ensures r.Err? ==> r.error == BadFormat
  {
    var ps := ParseFormat(s);
    if ps.Err? then Err(ps.error) else Render(ps.value, fields)
  }

  /** Prefixes the text of a successful result. */
  function Then(prefix: string, r: Result<string, Error>): Result<string, Error>
  {
    if r.Ok? then Ok(prefix + r.value) else r
  }

  /** Rendering a leading piece prefixes its text to the rendering of the rest. */
  lemma RenderCons(p: Piece, ps: seq<Piece>, fields: seq<string>)
    ensures p.Lit? ==> Render([p] + ps, fields) == Then([p.c], Render(ps, fields))
    ensures p.Slot? && p.index < |fields| ==> Render([p] + ps, fields) == Then("{{" + fields[p.index] + "}}", Render(ps, fields))
    ensures p.Slot? && p.index >= |fields| ==> Render([p] + ps, fields) == Err(BadFormat)
  {
    assert ([p] + ps)[1..] == ps;
  }

  /** Substitution of a string that starts with a parsed piece. */
  lemma SubstituteCons(p: Piece, s: string, rest: string, fields: seq<string>)
    requires ParseFormat(s) == Prepend(p, ParseFormat(rest))
    ensures p.Lit? ==> Substitute(s, fields) == Then([p.c], Substitute(rest, fields))
    ensures p.Slot? && p.index < |fields| ==> Substitute(s, fields) == Then("{{" + fields[p.index] + "}}", Substitute(rest, fields))
    ensures p.Slot? && p.index >= |fields| ==> Substitute(s, fields).Err?
  {
    var ps := ParseFormat(rest);
    if ps.Ok? {
      RenderCons(p, ps.value, fields);
    }
  }

  /** Text without braces passes through substitution unchanged. */
  lemma {:induction false} SubstituteLiteral(lit: string, rest: string, fields: seq<string>)
    requires '{' !in lit && '}' !in lit
    ensures Substitute(lit + rest, fields) == Then(lit, Substitute(rest, fields))
  {
    if |lit| > 0 {
      var s := lit + rest;
      assert s[1..] == lit[1..] + rest;
      SubstituteLiteral(lit[1..], rest, fields);
      assert s[0] == lit[0] && s[0] != '{' && s[0] != '}';
      assert ParseFormat(s) == Prepend(Lit(s[0]), ParseFormat(s[1..]));
      SubstituteCons(Lit(s[0]), s, s[1..], fields);
      var r := Substitute(rest, fields);
      if r.Ok? {
        assert [lit[0]] + (lit[1..] + r.value) == lit + r.value;
      }
    } else {
      assert lit + rest == rest;
      var r := Substitute(rest, fields);
      if r.Ok? { assert lit + r.value == r.value; }
    }
  }

  /** Placeholder `{d}` becomes the field reference `{{fields[d]}}`. */
  lemma SubstitutePlaceholder(d: nat, rest: string, fields: seq<string>)
    requires d < 10
    ensures d < |fields| ==> Substitute(UnparsePiece(Slot(d)) + rest, fields) == Then("{{" + fields[d] + "}}", Substitute(rest, fields))
    ensures d >= |fields| ==> Substitute(UnparsePiece(Slot(d)) + rest, fields) == Err(BadFormat)
  {
    ParsePieceThenRest(Slot(d), rest);
    SubstituteCons(Slot(d), UnparsePiece(Slot(d)) + rest, rest, fields);
    var ps := ParseFormat(rest);
    if ps.Ok? {
      RenderCons(Slot(d), ps.value, fields);
    }
  }

  /** A template without braces is left as it is. */
  lemma {:induction false} SubstituteWithoutBraces(s: string, fields: seq<string>)
    requires '{' !in s && '}' !in s
    ensures Substitute(s, fields) == Ok(s)
  {
    if |s| > 0 {
      SubstituteWithoutBraces(s[1..], fields);
      assert [s[0]] + s[1..] == s;
    }
  }

  lemma SlotTexts()
    ensures UnparsePiece(Slot(0)) == "{0}" && UnparsePiece(Slot(1)) == "{1}" && UnparsePiece(Slot(2)) == "{2}"
  {
  }

  /** The shorthand of the project's tests, written as its pieces. */
  lemma ScenarioText(t: string)
    requires t == "{0} - {1} \n<hr id=answer>\n {2}"
    ensures t == UnparsePiece(Slot(0)) + (" - " + (UnparsePiece(Slot(1)) + (" \n<hr id=answer>\n " + (UnparsePiece(Slot(2)) + ""))))
  {
    SlotTexts();
    ScenarioConcat(t, UnparsePiece(Slot(0)), UnparsePiece(Slot(1)), UnparsePiece(Slot(2)));
  }

  lemma ScenarioConcat(t: string, a: string, b: string, c: string)
    requires t == "{0} - {1} \n<hr id=answer>\n {2}" && a == "{0}" && b == "{1}" && c == "{2}"
    ensures t == a + (" - " + (b + (" \n<hr id=answer>\n " + (c + ""))))
  {
  }
}
