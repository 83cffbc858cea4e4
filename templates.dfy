/**
 * Field and template construction of `new_model`: field definitions with
 * sequential ordinals, and the resolution of each requested template from a
 * ready-made entry, a (question, answer) pair or a shorthand string.
 */
module Templates {
  import opened Wrappers
  import opened Text
  import opened Errors
  import opened Format
  import opened Records

  const FrontSide: string := "{{FrontSide}}"
  const AnswerMarker: string := "<hr id=answer>"

  /** A template as the caller passes it to `new_model`. */
  datatype TemplateSpec =
    | Entry(t: Template)             // a dict: kept verbatim
    | Pair(q: string, a: string)     // (question format, answer format)
    | Shorthand(s: string)           // "{0} ... <hr id=answer> ... {1}"

  /**
   * Splits a substituted shorthand at its LAST answer marker: the question is
   * the text before it, the answer is `{{FrontSide}}` followed by the marker
   * and the rest.
   */
  function SplitShorthand(t: string): (r: Result<(string, string), Error>)
    ensures r.Err? <==> forall j :: !OccursAt(t, AnswerMarker, j)
    ensures r.Err? ==> r.error == NoAnswerMarker
    ensures r.Ok? ==> |r.value.1| >= |FrontSide| && r.value.1[..|FrontSide|] == FrontSide
    ensures r.Ok? ==> r.value.0 + r.value.1[|FrontSide|..] == t
    ensures r.Ok? ==> OccursAt(r.value.1, AnswerMarker, |FrontSide|)
    ensures r.Ok? ==> forall j :: |FrontSide| < j ==> !OccursAt(r.value.1, AnswerMarker, j)
  {
    match LastOccurrence(t, AnswerMarker)
    case None => Err(NoAnswerMarker)
    case Some(i) =>
      var q, a := t[..i], FrontSide + t[i..];
      AnswerPart(t, i);
      Ok((q, a))
  }

  /** Prefixing `{{FrontSide}}` to the text from position `i` shifts every marker occurrence by its length. */
  lemma AnswerPart(t: string, i: nat)
    requires i <= |t|
    ensures (FrontSide + t[i..])[|FrontSide|..] == t[i..] && t[..i] + t[i..] == t
    ensures forall j :: |FrontSide| <= j ==> (OccursAt(FrontSide + t[i..], AnswerMarker, j) <==> OccursAt(t, AnswerMarker, i + j - |FrontSide|))
  {
    var a := FrontSide + t[i..];
    forall j | |FrontSide| <= j
      ensures OccursAt(a, AnswerMarker, j) <==> OccursAt(t, AnswerMarker, i + j - |FrontSide|)
    {
      if j + |AnswerMarker| <= |a| {
        assert a[j..j + |AnswerMarker|] == t[i + j - |FrontSide|..i + j - |FrontSide| + |AnswerMarker|];
      }
    }
  }

  /** A generated template: the default template renamed `Card i+1` with ordinal `i`. */
  function Numbered(base: Template, i: nat, q: string, a: string): (t: Template)
    // the name reads back as the one-based position of the template
    ensures |t.name| > 5 && t.name[..5] == "Card " && AllDigits(t.name[5..]) && ParseDecimal(t.name[5..]) == i + 1
    ensures t.ord == i && t.qfmt == q && t.afmt == a
    // nothing else of the default template changes
    ensures t.(name := base.name, ord := base.ord, qfmt := base.qfmt, afmt := base.afmt) == base
  {
    DecimalRoundTrip(i + 1);
    var t := base.(name := "Card " + Decimal(i + 1), ord := i, qfmt := q, afmt := a);
    assert t.name[5..] == Decimal(i + 1);
    t
  }

  /** One iteration of the template loop of `new_model`. */
  function ResolveTemplate(base: Template, spec: TemplateSpec, i: nat, fields: seq<string>): (r: Result<Template, Error>)
    ensures spec.Entry? ==> r == Ok(spec.t)
    ensures !spec.Entry? && r.Ok? ==> r.value.ord == i && r.value.name == "Card " + Decimal(i + 1) && r.value.rest == base.rest
    ensures spec.Pair? ==> r.Ok? && r.value.qfmt == spec.q && r.value.afmt == spec.a
    ensures spec.Shorthand? ==>
      (r.Ok? <==> Substitute(spec.s, fields).Ok? && exists j :: OccursAt(Substitute(spec.s, fields).value, AnswerMarker, j))
    ensures spec.Shorthand? && r.Ok? ==>
      && |r.value.afmt| >= |FrontSide| && r.value.afmt[..|FrontSide|] == FrontSide
      && r.value.qfmt + r.value.afmt[|FrontSide|..] == Substitute(spec.s, fields).value
    // the split is the one at the last answer marker
    ensures spec.Shorthand? && r.Ok? ==> SplitShorthand(Substitute(spec.s, fields).value) == Ok((r.value.qfmt, r.value.afmt))
  {
    match spec
    case Entry(t) => Ok(t)
    case Pair(q, a) => Ok(Numbered(base, i, q, a))
    case Shorthand(s) =>
      var sub := Substitute(s, fields);
      if sub.Err? then Err(sub.error)
      else
        var split := SplitShorthand(sub.value);
        if split.Err? then Err(split.error) else Ok(Numbered(base, i, split.value.0, split.value.1))
  }

  /** The template loop of `new_model` from iteration `i` on; the first failing template decides the error. */
  function ResolveFrom(base: Template, specs: seq<TemplateSpec>, fields: seq<string>, i: nat): (r: Result<seq<Template>, Error>)
    requires i <= |specs|
    ensures r.Ok? ==> |r.value| == |specs| - i
    ensures r.Ok? ==> forall j :: i <= j < |specs| ==> ResolveTemplate(base, specs[j], j, fields) == Ok(r.value[j - i])
    ensures r.Err? <==> exists j :: i <= j < |specs| && ResolveTemplate(base, specs[j], j, fields).Err?
    decreases |specs| - i
  {
    if i == |specs| then Ok([])
    else
      var t := ResolveTemplate(base, specs[i], i, fields);
      if t.Err? then Err(t.error)
      else
        var rest := ResolveFrom(base, specs, fields, i + 1);
        if rest.Err? then rest else Ok([t.value] + rest.value)
  }

  function ResolveTemplates(base: Template, specs: seq<TemplateSpec>, fields: seq<string>): (r: Result<seq<Template>, Error>)
    ensures r.Ok? ==> |r.value| == |specs|
    ensures r.Ok? ==> forall j :: 0 <= j < |specs| ==> ResolveTemplate(base, specs[j], j, fields) == Ok(r.value[j])
    ensures r.Err? <==> exists j :: 0 <= j < |specs| && ResolveTemplate(base, specs[j], j, fields).Err?
  {
    ResolveFrom(base, specs, fields, 0)
  }

  /** Field `i` of a new model: the default field definition named `fields[i]` with ordinal `i`. */
  function FieldAt(base: FieldDef, fields: seq<string>, i: nat): FieldDef
    requires i < |fields|
  {
    base.(name := fields[i], ord := i)
  }

  function BuildFields(base: FieldDef, fields: seq<string>): (r: seq<FieldDef>)
    ensures |r| == |fields|
    ensures forall i :: 0 <= i < |fields| ==> r[i].name == fields[i] && r[i].ord == i && r[i].rest == base.rest
  {
    seq(|fields|, i requires 0 <= i < |fields| => FieldAt(base, fields, i))
  }

  function FieldNames(fs: seq<FieldDef>): seq<string>
  {
    seq(|fs|, i requires 0 <= i < |fs| => fs[i].name)
  }

  /** The field list of a model; the ordinals of its fields and templates run 0, 1, 2, … */
  predicate OrdinalsSequential(fs: seq<FieldDef>, ts: seq<Template>)
  {
    && (forall i :: 0 <= i < |fs| ==> fs[i].ord == i)
    && (forall i :: 0 <= i < |ts| ==> ts[i].ord == i)
  }

  /** The built field list gives back the requested names, in order, with ordinals 0..n-1. */
  lemma FieldsRoundTrip(base: FieldDef, fields: seq<string>)
    ensures FieldNames(BuildFields(base, fields)) == fields
    ensures forall i :: 0 <= i < |fields| ==> BuildFields(base, fields)[i].ord == i
  {
  }

  /** When templates `k..i-1` resolve and template `i` does not, the loop fails with template `i`'s error. */
  lemma {:induction false} ResolveFromFirstError(base: Template, specs: seq<TemplateSpec>, fields: seq<string>, k: nat, i: nat)
    requires k <= i < |specs|
    requires forall j :: k <= j < i ==> ResolveTemplate(base, specs[j], j, fields).Ok?
    requires ResolveTemplate(base, specs[i], i, fields).Err?
    ensures ResolveFrom(base, specs, fields, k) == Err(ResolveTemplate(base, specs[i], i, fields).error)
    decreases i - k
  {
    if k < i {
      ResolveFromFirstError(base, specs, fields, k + 1, i);
    }
  }

  /**
   * Templates built from pairs and shorthands (no ready-made entries) carry
   * ordinals 0..n-1, as a model requires.
   */
  lemma GeneratedTemplatesSequential(base: FieldDef, fields: seq<string>, tbase: Template, specs: seq<TemplateSpec>)
    requires forall j :: 0 <= j < |specs| ==> !specs[j].Entry?
    requires ResolveTemplates(tbase, specs, fields).Ok?
    ensures OrdinalsSequential(BuildFields(base, fields), ResolveTemplates(tbase, specs, fields).value)
  {
    var ts := ResolveTemplates(tbase, specs, fields).value;
    forall j | 0 <= j < |ts| ensures ts[j].ord == j {
      assert ResolveTemplate(tbase, specs[j], j, fields) == Ok(ts[j]);
    }
  }

  /** Substitution of the three placeholders of the shorthand used by the project's tests. */
  lemma ScenarioSubstitution(f: seq<string>, l1: string, l2: string)
    requires |f| == 3 && l1 == " - " && l2 == " \n<hr id=answer>\n "
    ensures Substitute(UnparsePiece(Slot(0)) + (l1 + (UnparsePiece(Slot(1)) + (l2 + (UnparsePiece(Slot(2)) + "")))), f)
         == Ok("{{" + f[0] + "}}" + (l1 + ("{{" + f[1] + "}}" + (l2 + ("{{" + f[2] + "}}" + "")))))
  {
    var e := "";
    var t4 := UnparsePiece(Slot(2)) + e;
    var t3 := l2 + t4;
    var t2 := UnparsePiece(Slot(1)) + t3;
    var t1 := l1 + t2;
    SubstitutePlaceholder(2, e, f);
    assert Substitute(e, f) == Ok(e);
    SubstituteLiteral(l2, t4, f);
    SubstitutePlaceholder(1, t3, f);
    SubstituteLiteral(l1, t2, f);
    SubstitutePlaceholder(0, t1, f);
  }

  /**
   * The shorthand `"{0} - {1} \n<hr id=answer>\n {2}"` over the fields
   * English, Spanish and French gives a question with the first two field
   * references and no marker, and an answer that starts with `{{FrontSide}}`
   * and the marker and ends with the third field reference.
   */
  lemma ShorthandScenario(base: Template, t: string, f: seq<string>)
    requires t == "{0} - {1} \n<hr id=answer>\n {2}" && f == ["English", "Spanish", "French"]
    ensures ResolveTemplate(base, Shorthand(t), 0, f)
         == Ok(Numbered(base, 0, "{{English}} - {{Spanish}} \n", "{{FrontSide}}<hr id=answer>\n {{French}}"))
  {
    var l1, l2 := " - ", " \n<hr id=answer>\n ";
    ScenarioText(t);
    ScenarioSubstitution(f, l1, l2);
    var s := "{{" + f[0] + "}}" + (l1 + ("{{" + f[1] + "}}" + (l2 + ("{{" + f[2] + "}}" + ""))));
    var q, r := "{{English}} - {{Spanish}} \n", "\n {{French}}";
    ScenarioResult(f, l1, l2, s, q, r);
    ScenarioSplit(s, q, r);
  }

  /** The substituted shorthand, cut around its answer marker. */
  lemma ScenarioResult(f: seq<string>, l1: string, l2: string, s: string, q: string, r: string)
    requires f == ["English", "Spanish", "French"] && l1 == " - " && l2 == " \n<hr id=answer>\n "
    requires s == "{{" + f[0] + "}}" + (l1 + ("{{" + f[1] + "}}" + (l2 + ("{{" + f[2] + "}}" + ""))))
    requires q == "{{English}} - {{Spanish}} \n" && r == "\n {{French}}"
    ensures s == q + AnswerMarker + r
  {
    var a, b, c := "{{" + f[0] + "}}", "{{" + f[1] + "}}", "{{" + f[2] + "}}" + "";
    assert a == "{{English}}" && b == "{{Spanish}}" && c == "{{French}}";
    ScenarioPieces(a, l1, b, l2, c, q, r);
    CutAround(a, l1, b, " \n", "\n ", c, s, q, r);
  }

  lemma ScenarioPieces(a: string, l1: string, b: string, l2: string, c: string, q: string, r: string)
    requires a == "{{English}}" && b == "{{Spanish}}" && c == "{{French}}" && l1 == " - " && l2 == " \n<hr id=answer>\n "
    requires q == "{{English}} - {{Spanish}} \n" && r == "\n {{French}}"
    ensures l2 == " \n" + AnswerMarker + "\n " && q == a + l1 + b + " \n" && r == "\n " + c
  {
    ScenarioQuestion(a, l1, b, q);
  }

  lemma ScenarioQuestion(a: string, l1: string, b: string, q: string)
    requires a == "{{English}}" && b == "{{Spanish}}" && l1 == " - " && q == "{{English}} - {{Spanish}} \n"
    ensures q == a + l1 + b + " \n"
  {
    assert a + l1 == "{{English}} - ";
    assert b + " \n" == "{{Spanish}} \n";
    assert q == "{{English}} - " + "{{Spanish}} \n";
    assert a + l1 + b + " \n" == (a + l1) + (b + " \n");
  }

  /** Regrouping `a l1 b (x marker y) c` as `(a l1 b x) marker (y c)`. */
  lemma CutAround(a: string, l1: string, b: string, x: string, y: string, c: string, s: string, q: string, r: string)
    requires s == a + (l1 + (b + ((x + AnswerMarker + y) + (c + ""))))
    requires q == a + l1 + b + x && r == y + c
    ensures s == q + AnswerMarker + r
  {
    assert c + "" == c;
  }

  lemma ScenarioSplit(s: string, q: string, r: string)
    requires s == q + AnswerMarker + r
    requires q == "{{English}} - {{Spanish}} \n" && r == "\n {{French}}"
    ensures SplitShorthand(s) == Ok((q, "{{FrontSide}}<hr id=answer>\n {{French}}"))
  {
    assert |q| == 27;
    ScenarioMarkerAt(s, q, r);
    ScenarioNoLaterMarker(s, q, r);
    LastOccurrenceAt(s, AnswerMarker, 27);
    ScenarioAnswer(r);
  }

  lemma ScenarioAnswer(r: string)
    requires r == "\n {{French}}"
    ensures FrontSide + (AnswerMarker + r) == "{{FrontSide}}<hr id=answer>\n {{French}}"
  {
  }

  lemma ScenarioMarkerAt(s: string, q: string, r: string)
    requires s == q + AnswerMarker + r && |q| == 27
    ensures OccursAt(s, AnswerMarker, 27) && s[..27] == q && s[27..] == AnswerMarker + r
  {
    assert s[27..27 + |AnswerMarker|] == AnswerMarker;
  }

  lemma ScenarioNoLaterMarker(s: string, q: string, r: string)
    requires s == q + AnswerMarker + r && |q| == 27 && r == "\n {{French}}"
    ensures forall j :: 27 < j ==> !OccursAt(s, AnswerMarker, j)
  {
    forall j | 27 < j ensures !OccursAt(s, AnswerMarker, j) {
      if j + |AnswerMarker| <= |s| {
        assert j < 27 + |AnswerMarker|;
        assert s[j] == AnswerMarker[j - 27];
        assert s[j..j + |AnswerMarker|][0] == s[j] != '<';
      }
    }
  }
}
