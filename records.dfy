/**
 * The rows and JSON entries of an Anki collection as the record builder
 * sees them, and the in-memory state of one open collection.
 */
module Records {
  import opened Wrappers
  import opened Blobs

  /**
   * A member of an id namespace. The `did` and `mid` namespaces are seeded
   * with the JSON keys of the decks and models objects (strings), the others
   * with integer row ids; new ids are always probed as integers.
   */
  datatype Key = Num(n: int) | Str(s: string)

  datatype Namespace = Did | Mid | Nid | Cid | Guid

  /** `self.ids`: one used-set per namespace. */
  datatype IdSets = IdSets(did: set<Key>, mid: set<Key>, nid: set<Key>, cid: set<Key>, guid: set<Key>)
  {
    function Get(ns: Namespace): set<Key>
    {
      match ns
      case Did => did
      case Mid => mid
      case Nid => nid
      case Cid => cid
      case Guid => guid
    }

    /** `self.ids[ns].add(k)`: only namespace `ns` grows, by exactly `k`. */
    function Add(ns: Namespace, k: Key): (r: IdSets)
      ensures r.Get(ns) == Get(ns) + {k}
      ensures forall other :: other != ns ==> r.Get(other) == Get(other)
    {
      match ns
      case Did => this.(did := did + {k})
      case Mid => this.(mid := mid + {k})
      case Nid => this.(nid := nid + {k})
      case Cid => this.(cid := cid + {k})
      case Guid => this.(guid := guid + {k})
    }
  }

  /** A deck name; `None` is Python's None, which `add_item` passes when no deck is given. */
  type DeckName = Option<string>

  /** A deck entry of the decks object; `conf` stands for the scheduling options copied from the default deck. */
  datatype DeckEntry = DeckEntry(id: int, name: DeckName, conf: string)

  /** A field definition of a model; `rest` stands for the font and sticky settings. */
  datatype FieldDef = FieldDef(name: string, ord: int, rest: string)

  /** A card template of a model; `rest` stands for the browser formats and deck override. */
  datatype Template = Template(name: string, ord: int, qfmt: string, afmt: string, rest: string)

  /** A model (note type) entry of the models object; `rest` stands for its other settings. */
  datatype ModelEntry = ModelEntry(id: int, name: string, flds: seq<FieldDef>, tmpls: seq<Template>,
                                   css: string, mod: int, rest: string)

  /** A row of the `notes` table (the inert columns usn, flags and data are not modelled). */
  datatype Note = Note(id: int, guid: string, mid: int, mod: int, tags: string, flds: string,
                       sfld: string, csum: string)

  /** A row of the `cards` table (the scheduling columns, all defaults, are not modelled). */
  datatype Card = Card(id: int, nid: int, did: int, ord: int, mod: int)

  /** The single `col` row, reduced to its two decoded JSON objects. */
  datatype Collection = Collection(decks: Blob<DeckEntry>, models: Blob<ModelEntry>)

  /** What the open connection holds, plus the id namespaces of the session. */
  datatype State = State(ids: IdSets, col: Option<Collection>, notes: seq<Note>, cards: seq<Card>)

  /**
   * The default deck and the default models object of the bundled defaults;
   * the first default model ("Basic") is the template for new models.
   */
  datatype Defaults = Defaults(deck: DeckEntry, models: Blob<ModelEntry>)
  {
    predicate WellFormed()
    {
      |models| > 0 && |models[0].1.flds| > 0 && |models[0].1.tmpls| > 0 && UniqueKeys(models)
    }

    function Model(): ModelEntry
      requires WellFormed()
    {
      models[0].1
    }
  }

  /** Calls into code outside the model: HTML-to-text for `sfld` and the SHA-1 hex digest for `csum`. */
  datatype Externals = Externals(htmlText: string -> string, sha1Hex: string -> string)

  /** A database file as it is opened: whether the tables exist, and its rows. */
  datatype Store = Store(schema: bool, col: Option<Collection>, notes: seq<Note>, cards: seq<Card>)
  {
    /** Without tables there are no rows; JSON objects have unique keys. */
    predicate WellFormed()
    {
      && (!schema ==> col.None? && notes == [] && cards == [])
      && (col.Some? ==> UniqueKeys(col.value.decks) && UniqueKeys(col.value.models))
    }
  }

  /** The `create` flag of `deck`: True, False or None. */
  datatype CreateMode = MustCreate | MustExist | Either

  /** What an `AnkiDeck` handle keeps of its deck. */
  datatype DeckHandle = DeckHandle(id: int, name: DeckName)
}
