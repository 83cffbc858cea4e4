/**
 * The session object `AnkiDatabase` over an open collection file, and the
 * deck handle `AnkiDeck` it returns. Each method updates the session's
 * fields step by step as the Python code does and is proved to agree with
 * the corresponding function of the specification modules.
 */
module App {
  import opened Wrappers
  import opened Text
  import opened Blobs
  import opened Errors
  import opened Records
  import opened Templates
  import opened Allocator
  import opened Decks
  import opened Models
  import opened Notes

  class AnkiDatabase {
    /** The bundled defaults (`DEFAULTS`) and the HTML-to-text and SHA-1 helpers. */
    const defaults: Defaults
    const externals: Externals

    /** Whether the tables exist; the id namespaces (`self.ids`); the rows of the connection. */
    var schema: bool
    var ids: IdSets
    var col: Option<Collection>
    var notes: seq<Note>
    var cards: seq<Card>

    function Snapshot(): State
      reads this
    {
      State(ids, col, notes, cards)
    }

    ghost predicate Valid()
      reads this
    {
      schema && defaults.WellFormed() && Consistent(Snapshot(), defaults)
    }

    /** `AnkiDatabase(conn)`: empty namespaces, then `init()`. */
    constructor (store: Store, d: Defaults, ext: Externals)
      requires store.WellFormed() && d.WellFormed()
      ensures defaults == d && externals == ext
      ensures Snapshot() == State(SeedIds(store.col, store.notes, store.cards), store.col, store.notes, store.cards)
      ensures Valid()
    {
      defaults, externals := d, ext;
      schema, col, notes, cards := store.schema, store.col, store.notes, store.cards;
      ids := IdSets({}, {}, {}, {}, {});
      new;
      Init();
    }

    /**
     * `init()`: create the tables when the `col` table is missing, then seed
     * every namespace from the stored rows.
     */
    method Init()
      requires defaults.WellFormed()
      requires !schema ==> col.None? && notes == [] && cards == []
      requires col.Some? ==> UniqueKeys(col.value.decks) && UniqueKeys(col.value.models)
      modifies this
      ensures schema && col == old(col) && notes == old(notes) && cards == old(cards)
      ensures ids == SeedIds(col, notes, cards)
      ensures Valid()
    {
      if !schema {
        schema := true;
      }
      var did, mid := {}, {};
      if col.Some? {
        did := set key | key in Keys(col.value.decks) :: Str(key);
        mid := set key | key in Keys(col.value.models) :: Str(key);
      }
      var nid, guid := {}, {};
      for i := 0 to |notes|
        invariant nid == set j | 0 <= j < i :: Num(notes[j].id)
        invariant guid == set j | 0 <= j < i :: Str(notes[j].guid)
      {
        nid := nid + {Num(notes[i].id)};
        guid := guid + {Str(notes[i].guid)};
      }
      var cid := {};
      for i := 0 to |cards|
        invariant cid == set j | 0 <= j < i :: Num(cards[j].id)
      {
        cid := cid + {Num(cards[i].id)};
      }
      ids := IdSets(did, mid, nid, cid, guid);
      SeedConsistent(Store(schema, col, notes, cards), defaults);
    }

    /** `_new_id(ns)` with `time()*1000` reading `nowMs`: count up to the first unused id and take it. */
    method NewId(ns: Namespace, nowMs: nat) returns (id: nat)
      requires Valid()
      modifies this
      ensures (id, Snapshot()) == AllocId(old(Snapshot()), ns, nowMs)
      ensures schema == old(schema) && Valid()
    {
      var used := ids.Get(ns);
      var v := nowMs;
      while Num(v) in used
        invariant nowMs <= v && NextFree(used, v) == NextFree(used, nowMs)
        decreases UsedFrom(used, v)
      {
        assert Num(v) in UsedFrom(used, v) && Num(v) !in UsedFrom(used, v + 1);
        v := v + 1;
      }
      ids := ids.Add(ns, Num(v));
      id := v;
      AllocConsistent(old(Snapshot()), defaults, ns, nowMs);
    }

    /** `_new_guid()` where `guid64()` returns `draws[0]`, `draws[1]`, …: draw until unused, take it. */
    method NewGuid(draws: seq<string>) returns (guid: string)
      requires Valid()
      requires exists j :: 0 <= j < |draws| && Str(draws[j]) !in ids.guid
      modifies this
      ensures (guid, Snapshot()) == AllocGuid(old(Snapshot()), draws)
      ensures schema == old(schema) && Valid()
    {
      var i := 0;
      while Str(draws[i]) in ids.guid
        invariant i <= FirstFresh(ids.guid, draws, 0)
        invariant forall j :: 0 <= j < i ==> Str(draws[j]) in ids.guid
        decreases |draws| - i
      {
        i := i + 1;
      }
      guid := draws[i];
      ids := ids.Add(Guid, Str(guid));
      GuidConsistent(old(Snapshot()), defaults, draws);
    }

    /**
     * `deck(name, create)`: read the decks object (inserting the default
     * `col` row when there is none), scan every entry for the name keeping
     * the last match, then return it or create the deck.
     */
    method Deck(name: DeckName, mode: CreateMode, nowMs: nat) returns (r: Result<AnkiDeck, Error>)
      requires Valid()
      modifies this
      ensures var (h, s) := DeckSpec(old(Snapshot()), defaults, name, mode, nowMs);
              && Snapshot() == s
              && (r.Ok? <==> h.Ok?)
              && (r.Ok? ==> fresh(r.value) && r.value.id == h.value.id && r.value.name == h.value.name && r.value.anki == this)
              && (r.Err? ==> r.error == h.error)
      ensures schema == old(schema) && Valid()
    {
      DeckConsistent(Snapshot(), defaults, name, mode, nowMs);
      ghost var s0 := Snapshot();
      if col.None? && mode == MustExist {
        return Err(NotFound);
      }
      var c := if col.Some? then col.value else Collection([], defaults.models);
      assert c == ColOrDefault(s0, defaults);
      col := Some(c);
      var found := LastDeck(c.decks, name);
      match found
      case Some(j) =>
        if mode == MustCreate {
          return Err(AlreadyExists);
        }
        var handle := new AnkiDeck(c.decks[j].1, this);
        return Ok(handle);
      case None =>
        ghost var s1 := Snapshot();
        assert s1 == s0.(col := Some(c));
        var id := NewId(Did, nowMs);
        assert (id, Snapshot()) == AllocId(s1, Did, nowMs);
        var entry := NewDeckEntry(defaults, id, name);
        col := Some(c.(decks := Put(c.decks, Decimal(id), entry)));
        var handle := new AnkiDeck(entry, this);
        return Ok(handle);
    }

    /** The scan of `deck`: every entry is visited and the last one with the name is kept. */
    static method LastDeck(decks: Blob<DeckEntry>, name: DeckName) returns (found: Option<nat>)
      ensures found == LastDeckNamed(decks, name)
    {
      found := None;
      for i := 0 to |decks|
        invariant found == LastDeckNamed(decks[..i], name)
      {
        assert decks[..i + 1][..i] == decks[..i];
        if decks[i].1.name == name {
          found := Some(i);
        }
      }
      assert decks[..|decks|] == decks;
    }

    /** `new_deck(name)`: `deck(name, create=True)`. */
    method NewDeck(name: DeckName, nowMs: nat) returns (r: Result<AnkiDeck, Error>)
      requires Valid()
      modifies this
      ensures var (h, s) := DeckSpec(old(Snapshot()), defaults, name, MustCreate, nowMs);
              && Snapshot() == s && (r.Ok? <==> h.Ok?)
              && (r.Ok? ==> fresh(r.value) && r.value.id == h.value.id && r.value.name == name && r.value.anki == this)
              && (r.Err? ==> r.error == h.error)
      ensures schema == old(schema) && Valid()
    {
      r := Deck(name, MustCreate, nowMs);
    }

    /** `get_deck(name)`: `deck(name, create=False)`. */
    method GetDeck(name: DeckName, nowMs: nat) returns (r: Result<AnkiDeck, Error>)
      requires Valid()
      modifies this
      ensures var (h, s) := DeckSpec(old(Snapshot()), defaults, name, MustExist, nowMs);
              && Snapshot() == s && (r.Ok? <==> h.Ok?)
              && (r.Ok? ==> fresh(r.value) && r.value.id == h.value.id && r.value.name == name && r.value.anki == this)
              && (r.Err? ==> r.error == h.error)
      ensures schema == old(schema) && Valid()
    {
      r := Deck(name, MustExist, nowMs);
    }

    /** `_model(name)`: walk the models object and return the first entry with that name. */
    method Model(name: string) returns (r: Result<ModelEntry, Error>)
      ensures r == ModelNamed(Snapshot(), name)
    {
      if col.None? {
        return Err(NoCollection);
      }
      var models := col.value.models;
      for i := 0 to |models|
        invariant forall j :: 0 <= j < i ==> models[j].1.name != name
      {
        if models[i].1.name == name {
          return Ok(models[i].1);
        }
      }
      return Err(NotFound);
    }

    /**
     * `new_model(name, fields, templates, css)`: check the name against the
     * keys, take a model id, build the fields and the templates in order,
     * fill in Basic's templates and style sheet where none are given, and
     * store the model under `str(id)`.
     */
    method NewModel(name: string, fields: seq<string>, templates: Option<seq<TemplateSpec>>, css: Option<string>, nowMs: nat)
      returns (r: Result<ModelEntry, Error>)
      requires Valid()
      modifies this
      ensures (r, Snapshot()) == NewModelSpec(old(Snapshot()), defaults, name, fields, templates, css, nowMs)
      ensures schema == old(schema) && Valid()
    {
      NewModelConsistent(Snapshot(), defaults, name, fields, templates, css, nowMs);
      if col.None? {
        return Err(NoCollection);
      }
      if name in Keys(col.value.models) {
        return Err(AlreadyExists);
      }
      var s0 := Snapshot();
      var mid := NewId(Mid, nowMs);
      var base := defaults.Model();
      var flds := FieldList(base.flds[0], fields);
      var tmpls: seq<Template>;
      if templates.None? {
        var basic := Model("Basic");
        assert ModelNamed(Snapshot(), "Basic") == ModelNamed(s0, "Basic");
        if basic.Err? {
          return Err(basic.error);
        }
        tmpls := basic.value.tmpls;
      } else {
        var resolved := TemplateList(base.tmpls[0], templates.value, fields);
        if resolved.Err? {
          return Err(resolved.error);
        }
        tmpls := resolved.value;
      }
      var style: string;
      if css.None? {
        var basic := Model("Basic");
        assert ModelNamed(Snapshot(), "Basic") == ModelNamed(s0, "Basic");
        if basic.Err? {
          return Err(basic.error);
        }
        style := basic.value.css;
      } else {
        style := css.value;
      }
      // `models[str(id)]` is the default model until the update below; both happen before the write.
      var m := base.(name := name, flds := flds, id := mid, mod := nowMs / 1000, tmpls := tmpls, css := style);
      assert tmpls == ModelTemplates(s0, defaults, templates, fields).value;
      assert m == NewModelEntry(defaults, name, fields, mid, nowMs, tmpls, style);
      col := Some(col.value.(models := Put(col.value.models, Decimal(mid), m)));
      return Ok(m);
    }

    /** The field loop of `new_model`: a copy of the default field per name, with ordinals 0, 1, … */
    static method FieldList(base: FieldDef, fields: seq<string>) returns (flds: seq<FieldDef>)
      ensures flds == BuildFields(base, fields)
    {
      flds := [];
      for i := 0 to |fields|
        invariant |flds| == i && forall j :: 0 <= j < i ==> flds[j] == FieldAt(base, fields, j)
      {
        flds := flds + [base.(name := fields[i], ord := i)];
      }
    }

    /** The template loop of `new_model`: resolve each template in order, stopping at the first failure. */
    static method TemplateList(base: Template, specs: seq<TemplateSpec>, fields: seq<string>) returns (r: Result<seq<Template>, Error>)
      ensures r == ResolveTemplates(base, specs, fields)
    {
      var tmpls := [];
      for i := 0 to |specs|
        invariant |tmpls| == i
        invariant forall j :: 0 <= j < i ==> ResolveTemplate(base, specs[j], j, fields) == Ok(tmpls[j])
      {
        var t := ResolveTemplate(base, specs[i], i, fields);
        if t.Err? {
          ResolveFromFirstError(base, specs, fields, 0, i);
          return Err(t.error);
        }
        tmpls := tmpls + [t.value];
      }
      var all := ResolveTemplates(base, specs, fields);
      assert all.value == tmpls;
      return Ok(tmpls);
    }

    /**
     * `add_item(*args, model=modelName, tags=tags, deck=... or decks=...)`:
     * take a note id, look up the model, take a guid, insert the note, take
     * one card id, then resolve a deck and insert a card for each template.
     */
    method AddItem(args: seq<string>, modelName: string, tags: string, plan: CardPlan, nowMs: nat, draws: seq<string>)
      returns (r: Result<(), Error>)
      requires Valid()
      requires exists j :: 0 <= j < |draws| && Str(draws[j]) !in ids.guid
      modifies this
      ensures (r, Snapshot()) == AddItemSpec(old(Snapshot()), defaults, externals, args, modelName, tags, plan, nowMs, draws)
      ensures schema == old(schema) && Valid()
    {
      var stored := AddNote(args, modelName, tags, nowMs, draws);
      if stored.Err? {
        return Err(stored.error);
      }
      var (nid, cid, n) := stored.value;
      r := AddCards(plan, nid, cid, n, nowMs);
    }

    /**
     * `add_item` up to its card loop: the note id, the model, the guid, the
     * note row and the card id; gives the note id, the card id and the number
     * of templates.
     */
    method AddNote(args: seq<string>, modelName: string, tags: string, nowMs: nat, draws: seq<string>)
      returns (r: Result<(int, int, nat), Error>)
      requires Valid()
      requires exists j :: 0 <= j < |draws| && Str(draws[j]) !in ids.guid
      modifies this
      ensures (r, Snapshot()) == StoreNote(old(Snapshot()), externals, args, modelName, tags, nowMs, draws)
      ensures schema == old(schema) && Valid()
    {
      if |args| == 0 {
        return Err(MissingArgument);
      }
      var nid := NewId(Nid, nowMs);
      var m := Model(modelName);
      if m.Err? {
        return Err(m.error);
      }
      var model := m.value;
      var guid := NewGuid(draws);
      ghost var s2 := Snapshot();
      var note := NewNote(externals, nid, guid, model.id, args, tags, nowMs);
      if HasNoteId(notes, nid) {
        return Err(DuplicateId);
      }
      notes := notes + [note];
      assert InsertNote(s2, note) == Ok(Snapshot());
      assert Consistent(Snapshot(), defaults);
      var cid := NewId(Cid, nowMs);
      return Ok((nid, cid, |model.tmpls|));
    }

    /**
     * The card loop of `add_item` for a model of `n` templates: for each
     * template resolve its deck (create=None) and insert a card with the
     * note id `nid` and the card id `cid`.
     */
    method AddCards(plan: CardPlan, nid: int, cid: int, n: nat, nowMs: nat) returns (r: Result<(), Error>)
      requires Valid() && Num(cid) in ids.cid
      modifies this
      ensures (r, Snapshot()) == PlaceCards(old(Snapshot()), defaults, plan, nid, cid, n, 0, nowMs)
      ensures schema == old(schema) && Valid()
    {
      for k := 0 to n
        invariant Valid() && Num(cid) in ids.cid
        invariant PlaceCards(Snapshot(), defaults, plan, nid, cid, n, k, nowMs)
               == PlaceCards(old(Snapshot()), defaults, plan, nid, cid, n, 0, nowMs)
      {
        var target := Target(plan, k);
        if target.Err? {
          return Err(target.error);
        }
        ghost var before := Snapshot();
        ghost var (h, s1) := DeckSpec(before, defaults, target.value, Either, nowMs);
        var deck := Deck(target.value, Either, nowMs);
        assert deck.Ok? && deck.value.id == h.value.id && Snapshot() == s1;
        var card := Card(cid, nid, deck.value.id, k, nowMs / 1000);
        PlaceCardsStep(before, defaults, plan, nid, cid, n, k, nowMs);
        if HasCardId(cards, cid) {
          return Err(DuplicateId);
        }
        CardKeepsConsistent(s1, defaults, card);
        cards := cards + [card];
        assert Snapshot() == s1.(cards := s1.cards + [card]);
      }
      return Ok(());
    }
  }

  /** A deck handle: the deck's name and id, and the session it belongs to. */
  class AnkiDeck {
    const name: DeckName
    const id: int
    const anki: AnkiDatabase

    constructor (deck: DeckEntry, anki: AnkiDatabase)
      ensures name == deck.name && id == deck.id && this.anki == anki
    {
      name, id, this.anki := deck.name, deck.id, anki;
    }

    /** `add_item(*args, **kwargs)`: the session's `add_item` with `deck=self.name`, unless `decks` is given. */
    method AddItem(args: seq<string>, modelName: string, tags: string, decks: Option<seq<DeckName>>, nowMs: nat, draws: seq<string>)
      returns (r: Result<(), Error>)
      requires anki.Valid()
      requires exists j :: 0 <= j < |draws| && Str(draws[j]) !in anki.ids.guid
      modifies anki
      ensures var plan := if decks.Some? then PerTemplate(decks.value) else Single(name);
              (r, anki.Snapshot()) == AddItemSpec(old(anki.Snapshot()), anki.defaults, anki.externals, args, modelName, tags, plan, nowMs, draws)
      ensures anki.Valid()
    {
      var plan := if decks.Some? then PerTemplate(decks.value) else Single(name);
      r := anki.AddItem(args, modelName, tags, plan, nowMs, draws);
    }
  }
}
