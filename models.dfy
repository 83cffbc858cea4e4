/**
 * The model (note type) registry: `_model`, the lookup by name, and
 * `new_model`, which derives a model from the default "Basic" model.
 */
module Models {
  import opened Wrappers
  import opened Text
  import opened Blobs
  import opened Errors
  import opened Records
  import opened Templates
  import opened Allocator

  /** The index of the FIRST entry of the models object named `name`: `_model` returns on its first match. */
  function FirstModelNamed(models: Blob<ModelEntry>, name: string): (r: Option<nat>)
    ensures r.Some? ==> r.value < |models| && models[r.value].1.name == name
    ensures r.Some? ==> forall j :: 0 <= j < r.value ==> models[j].1.name != name
    ensures r.None? <==> forall j :: 0 <= j < |models| ==> models[j].1.name != name
  {
    if |models| == 0 then None
    else if models[0].1.name == name then Some(0)
    else
      var r := FirstModelNamed(models[1..], name);
      assert forall j :: 0 < j < |models| ==> models[1..][j - 1] == models[j];
      if r.Some? then Some(r.value + 1) else None
  }

  /**
   * `_model(name)`: without a collection row the lookup fails (the row is
   * read unconditionally); otherwise the first model with that name, or
   * ValueError.
   */
  function ModelNamed(s: State, name: string): (r: Result<ModelEntry, Error>)
    ensures s.col.None? ==> r == Err(NoCollection)
    ensures s.col.Some? && r.Err? ==> r.error == NotFound
    ensures s.col.Some? ==> (r.Err? <==> forall j :: 0 <= j < |s.col.value.models| ==> s.col.value.models[j].1.name != name)
    ensures r.Ok? ==> s.col.Some? && r.value.name == name
    ensures r.Ok? ==>
      exists j :: 0 <= j < |s.col.value.models| && s.col.value.models[j].1 == r.value
        && forall k :: 0 <= k < j ==> s.col.value.models[k].1.name != name
  {
    if s.col.None? then Err(NoCollection)
    else match FirstModelNamed(s.col.value.models, name)
      case None => Err(NotFound)
      case Some(j) => Ok(s.col.value.models[j].1)
  }

  /** The templates of a new model: Basic's when none are given, otherwise the resolved list. */
  function ModelTemplates(s: State, d: Defaults, templates: Option<seq<TemplateSpec>>, fields: seq<string>): (r: Result<seq<Template>, Error>)
    requires d.WellFormed()
    ensures templates.None? ==> r == (var b := ModelNamed(s, "Basic"); if b.Ok? then Ok(b.value.tmpls) else Err(b.error))
    ensures templates.Some? ==> r == ResolveTemplates(d.Model().tmpls[0], templates.value, fields)
  {
    match templates
    case None =>
      var b := ModelNamed(s, "Basic");
      if b.Ok? then Ok(b.value.tmpls) else Err(b.error)
    case Some(specs) => ResolveTemplates(d.Model().tmpls[0], specs, fields)
  }

  /** The style sheet of a new model: Basic's when none is given. */
  function ModelCss(s: State, css: Option<string>): (r: Result<string, Error>)
    ensures css.Some? ==> r == Ok(css.value)
    ensures css.None? && r.Ok? ==> exists m :: ModelNamed(s, "Basic") == Ok(m) && r.value == m.css
    ensures css.None? && r.Err? ==> ModelNamed(s, "Basic").Err? && r.error == ModelNamed(s, "Basic").error
  {
    match css
    case Some(c) => Ok(c)
    case None =>
      var b := ModelNamed(s, "Basic");
      if b.Ok? then Ok(b.value.css) else Err(b.error)
  }

  /** The entry a new model gets: the default model with the given name, fields, id, time, templates and style. */
  function NewModelEntry(d: Defaults, name: string, fields: seq<string>, mid: nat, nowMs: nat, tmpls: seq<Template>, css: string): (m: ModelEntry)
    requires d.WellFormed()
    // the field list gives back the requested names, with ordinals 0, 1, 2, ...
    ensures FieldNames(m.flds) == fields && forall i :: 0 <= i < |m.flds| ==> m.flds[i].ord == i
    ensures m.name == name && m.id == mid && m.mod == nowMs / 1000 && m.tmpls == tmpls && m.css == css
    // the other settings are the default model's
    ensures m.rest == d.Model().rest
  {
    FieldsRoundTrip(d.Model().flds[0], fields);
    d.Model().(name := name, flds := BuildFields(d.Model().flds[0], fields), id := mid,
               mod := nowMs / 1000, tmpls := tmpls, css := css)
  }

  /**
   * `new_model(name, fields, templates, css)` with the clock at `nowMs`:
   * the new model (or the exception) and the state afterwards.
   */
  function NewModelSpec(s: State, d: Defaults, name: string, fields: seq<string>,
                        templates: Option<seq<TemplateSpec>>, css: Option<string>, nowMs: nat): (r: (Result<ModelEntry, Error>, State))
    requires d.WellFormed()
    // no collection row: nothing happens
    ensures s.col.None? ==> r == (Err(NoCollection), s)
    // the name is compared with the KEYS of the models object
    ensures s.col.Some? && name in Keys(s.col.value.models) ==> r == (Err(AlreadyExists), s)
    // past that check a model id is always allocated, even when a later step fails
    ensures s.col.Some? && name !in Keys(s.col.value.models) ==>
      exists mid: nat :: mid >= nowMs && Num(mid) !in s.ids.mid && r.1.ids == s.ids.Add(Mid, Num(mid))
        && r.1.notes == s.notes && r.1.cards == s.cards && r.1.col.Some?
        && (r.0.Err? ==> r.1.col == s.col)
        && (r.0.Ok? ==> r.0.value.id == mid && r.1.col.value.models == Put(s.col.value.models, Decimal(mid), r.0.value)
                        && r.1.col.value.decks == s.col.value.decks)
    // it fails exactly when the templates or the style sheet cannot be resolved
    ensures s.col.Some? && name !in Keys(s.col.value.models) ==>
      (r.0.Ok? <==> ModelTemplates(s, d, templates, fields).Ok? && ModelCss(s, css).Ok?)
    ensures r.0.Err? && s.col.Some? && name !in Keys(s.col.value.models) ==>
      r.0.error == (if ModelTemplates(s, d, templates, fields).Err? then ModelTemplates(s, d, templates, fields).error
                    else ModelCss(s, css).error)
    // what the new model holds
    ensures r.0.Ok? ==>
      && r.0.value.name == name
      && FieldNames(r.0.value.flds) == fields
      && (forall i :: 0 <= i < |fields| ==> r.0.value.flds[i] == d.Model().flds[0].(name := fields[i], ord := i))
      && r.0.value.mod == nowMs / 1000
      && r.0.value.tmpls == ModelTemplates(s, d, templates, fields).value
      && r.0.value.css == ModelCss(s, css).value
      && r.0.value.rest == d.Model().rest
  {
    if s.col.None? then (Err(NoCollection), s)
    else if name in Keys(s.col.value.models) then (Err(AlreadyExists), s)
    else
      var (mid, s1) := AllocId(s, Mid, nowMs);
      var tm := ModelTemplates(s, d, templates, fields);
      var cs := ModelCss(s, css);
      if tm.Err? then (Err(tm.error), s1)
      else if cs.Err? then (Err(cs.error), s1)
      else
        var m := NewModelEntry(d, name, fields, mid, nowMs, tm.value, cs.value);
        FieldsRoundTrip(d.Model().flds[0], fields);
        var col := s1.col.value;
        (Ok(m), s1.(col := Some(col.(models := Put(col.models, Decimal(mid), m)))))
  }

  /** Appending an entry does not change the first match of a name that was already present. */
  lemma FirstNamedAppend(b: Blob<ModelEntry>, p: (string, ModelEntry), name: string)
    ensures FirstModelNamed(b + [p], name) ==
      if FirstModelNamed(b, name).Some? then FirstModelNamed(b, name)
      else if p.1.name == name then Some(|b|) else None
  {
    var c := b + [p];
    assert forall j :: 0 <= j < |b| ==> c[j] == b[j];
    assert c[|b|] == p;
    var r := FirstModelNamed(c, name);
    var q := FirstModelNamed(b, name);
    if q.Some? {
      assert r.Some?;
      assert !(r.value < q.value) && !(q.value < r.value);
    } else if p.1.name == name {
      assert r.Some? && r.value == |b|;
    }
  }

  /**
   * After `new_model(name)` has stored its model under a new key, `_model(name)`
   * returns it, unless an older model already carries that name: the
   * duplicate check looks at ids, not names, so the older one shadows it.
   */
  lemma ModelLookupAfterNew(s: State, d: Defaults, name: string, fields: seq<string>,
                            templates: Option<seq<TemplateSpec>>, css: Option<string>, nowMs: nat)
    requires d.WellFormed()
    requires NewModelSpec(s, d, name, fields, templates, css, nowMs).0.Ok?
    requires Decimal(NewModelSpec(s, d, name, fields, templates, css, nowMs).0.value.id) !in Keys(s.col.value.models)
    ensures var r := NewModelSpec(s, d, name, fields, templates, css, nowMs);
            ModelNamed(r.1, name) == if ModelNamed(s, name).Ok? then ModelNamed(s, name) else r.0
  {
    var r := NewModelSpec(s, d, name, fields, templates, css, nowMs);
    var m := r.0.value;
    var models := s.col.value.models;
    PutNewKey(models, Decimal(m.id), m);
    assert r.1.col.value.models == models + [(Decimal(m.id), m)];
    FirstNamedAppend(models, (Decimal(m.id), m), name);
  }

  /**
   * A model `new_model` creates is stored under `str(mid)` and every other
   * key keeps its entry; when that key is new the entry is appended.
   */
  lemma CreatedModelStored(s: State, d: Defaults, name: string, fields: seq<string>,
                           templates: Option<seq<TemplateSpec>>, css: Option<string>, nowMs: nat)
    requires d.WellFormed()
    requires NewModelSpec(s, d, name, fields, templates, css, nowMs).0.Ok?
    ensures var (r, s1) := NewModelSpec(s, d, name, fields, templates, css, nowMs);
            var old_, new_ := s.col.value.models, s1.col.value.models;
            && Get(new_, Decimal(r.value.id)) == Some(r.value)
            && (forall k :: k != Decimal(r.value.id) ==> Get(new_, k) == Get(old_, k))
            && (Decimal(r.value.id) !in Keys(old_) ==> new_ == old_ + [(Decimal(r.value.id), r.value)])
  {
    var (r, s1) := NewModelSpec(s, d, name, fields, templates, css, nowMs);
    var m := r.value;
    forall k ensures Get(s1.col.value.models, k) == if k == Decimal(m.id) then Some(m) else Get(s.col.value.models, k) {
      PutGet(s.col.value.models, Decimal(m.id), m, k);
    }
    if Decimal(m.id) !in Keys(s.col.value.models) {
      PutNewKey(s.col.value.models, Decimal(m.id), m);
    }
  }

  /**
   * The model of the project's tests: fields English, Spanish and French and
   * the shorthand `"{0} - {1} \n<hr id=answer>\n {2}"` give one template,
   * "Card 1", whose question shows the first two fields and whose answer
   * shows the front side, the marker and the third field.
   */
  lemma ShorthandModelScenario(s: State, d: Defaults, name: string, fields: seq<string>, t: string, css: Option<string>, nowMs: nat)
    requires d.WellFormed() && s.col.Some? && name !in Keys(s.col.value.models)
    requires t == "{0} - {1} \n<hr id=answer>\n {2}" && fields == ["English", "Spanish", "French"]
    requires css.Some? || ModelNamed(s, "Basic").Ok?
    ensures var r := NewModelSpec(s, d, name, fields, Some([Shorthand(t)]), css, nowMs).0;
            && r.Ok? && FieldNames(r.value.flds) == fields
            && r.value.css == (if css.Some? then css.value else ModelNamed(s, "Basic").value.css)
            && r.value.tmpls == [Numbered(d.Model().tmpls[0], 0, "{{English}} - {{Spanish}} \n", "{{FrontSide}}<hr id=answer>\n {{French}}")]
  {
    var base := d.Model().tmpls[0];
    ShorthandScenario(base, t, fields);
    var specs := [Shorthand(t)];
    assert ResolveTemplate(base, specs[0], 0, fields).Ok?;
    var ts := ResolveTemplates(base, specs, fields);
    assert ts.Ok? && |ts.value| == 1;
  }

  /** `new_model` keeps the collection invariant. */
  lemma NewModelConsistent(s: State, d: Defaults, name: string, fields: seq<string>,
                           templates: Option<seq<TemplateSpec>>, css: Option<string>, nowMs: nat)
    requires d.WellFormed() && Consistent(s, d)
    ensures Consistent(NewModelSpec(s, d, name, fields, templates, css, nowMs).1, d)
  {
    var r := NewModelSpec(s, d, name, fields, templates, css, nowMs);
    if s.col.Some? && name !in Keys(s.col.value.models) {
      var mid: nat :| mid >= nowMs && Num(mid) !in s.ids.mid && r.1.ids == s.ids.Add(Mid, Num(mid))
        && r.1.notes == s.notes && r.1.cards == s.cards && r.1.col.Some?
        && (r.0.Err? ==> r.1.col == s.col)
        && (r.0.Ok? ==> r.0.value.id == mid && r.1.col.value.models == Put(s.col.value.models, Decimal(mid), r.0.value)
                        && r.1.col.value.decks == s.col.value.decks);
      var models := s.col.value.models;
      TrackedGrows(Keys(s.col.value.decks), s.ids.did, {});
      TrackedAfterNewKey(Keys(models) - Keys(d.models), s.ids.mid, mid);
      if r.0.Ok? {
        PutUnique(models, Decimal(mid), r.0.value);
        TrackedSubset((Keys(models) - Keys(d.models)) + {Decimal(mid)},
                      Keys(Put(models, Decimal(mid), r.0.value)) - Keys(d.models), s.ids.mid + {Num(mid)});
      } else {
        TrackedSubset((Keys(models) - Keys(d.models)) + {Decimal(mid)}, Keys(models) - Keys(d.models), s.ids.mid + {Num(mid)});
      }
    }
  }
}
