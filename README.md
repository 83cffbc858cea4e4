# AnkiPy record builder, modelled in Dafny

This project models the record builder of AnkiPy (`AnkiPy/app.py`, class
`AnkiDatabase`). The builder writes notes, cards, decks and note types
(models) into the SQLite file of an Anki collection. The model covers:

- the id namespaces `did`, `mid`, `nid`, `cid` and `guid` of a session;
- `init`, which seeds those namespaces from the stored rows;
- the allocators `_new_id` and `_new_guid`;
- the deck manager `deck` / `new_deck` / `get_deck`, with its tri-state
  `create` flag;
- the model lookup `_model`;
- the model builder `new_model`, including the resolution of templates from
  a dict, a (question, answer) pair or a shorthand string;
- the note/card composer `add_item`;
- the delegation `AnkiDeck.add_item`.

The SQLite connection becomes a value `Records.State`. It holds the
namespaces, the optional `col` row (its `decks` and `models` JSON objects
as ordered key/entry lists), the note rows and the card rows. Each
operation is a function of that state in a specification module:

- `Allocator`;
- `Decks`;
- `Models`, built on `Templates`, `Format` and `Text`;
- `Notes`.

The class `App.AnkiDatabase` holds the same data in mutable fields. Its
methods work step by step, with the loops of the Python code. Each is
proved to leave `Snapshot()` and its result equal to the specification
function applied to the old state. The class invariant `Valid()`
(`Allocator.Consistent`) says four things:

- JSON keys are unique;
- every key of the decks object is either a seeded key or the decimal form
  of an id allocated in the session;
- the same holds for every key of the models object, except the keys of the
  default models. When there is no `col` row, `deck` inserts the default
  `col` row with its default models (AnkiPy/app.py:219-231), and those keys
  are in no namespace, because `init` never saw them;
- every stored note id, guid and card id is in its namespace.

Every operation preserves the invariant.

The model keeps these behaviours of the code:

- **Key types.** `init` seeds `did` and `mid` with the string keys of the
  JSON objects, but `_new_id` probes integers. A new `str(id)` can
  therefore clash with a key loaded from the file. `Allocator.LoadedKeyClash`
  gives such an input. `Allocator.NewKeyClashesOnlyWithLoaded` proves that
  a clash with a key made in the session is impossible. On a clash, the
  dict assignment replaces the old entry in place.
- **Last match.** `deck` scans all entries without stopping, so it returns
  the last entry with the name.
- **Missing deck with `create=False`.** `deck` creates the deck when the
  `col` row exists. It only refuses when there is no `col` row.
- **Duplicate check in `new_model`.** The check compares the name with the
  keys of the models object, which are id strings. So two models can share
  a name, and `_model` then returns the older one
  (`Models.ModelLookupAfterNew`).
- **First match.** `_model` returns the first entry whose name matches.
- **Shorthand split.** The split is greedy: the question is the text before
  the LAST `<hr id=answer>`. The answer is `{{FrontSide}}` followed by the
  marker and the rest.
- **Shared card id.** `add_item` allocates one card id for the note and
  gives it to every card. `cards.id` is the table's primary key (line 39),
  so the database refuses the second card. For a model with two or more
  templates, `add_item` therefore stores the note and one card and then
  raises `sqlite3.IntegrityError` (`Notes.SharedCardIdAtMostOne`,
  `Notes.AddItemCards`). The intended behaviour is one card per template.
  `Notes.AddItemIntended` takes a fresh card id for every template, and
  `Notes.AddItemIntendedCards` proves that it stores one card per template.
  That proof assumes that no key loaded from the file is the decimal form of
  an id at or above the clock (`Decks.NoLoadedClockKeys`). The class
  `App.AnkiDatabase` follows the code as written (see "## Findings").
- **Verbatim columns.** `tags` is stored verbatim. `csum` is the full SHA-1
  hex digest of the sort field.
- **No rollback.** Ids taken before a failure stay taken. Rows inserted
  before a failure stay in the state; nothing is rolled back.
- **Empty template lists** are accepted. The note then gets no card.

## Model

| member | source | states |
|---|---|---|
| Text.Decimal | AnkiPy/app.py:249 | `str(id)`: a non-empty string of digits with a leading `0` only for zero |
| Text.Join | AnkiPy/app.py:278 | `'\x1f'.join`: empty for no values; otherwise the total length plus one separator between neighbours, starting with the first value and then the separator |
| Text.DecimalInjective | AnkiPy/app.py:249-250 | distinct ids give distinct `str(id)` keys (via the parse-back round trip `DecimalRoundTrip`) |
| Text.DecimalRoundTrip | AnkiPy/app.py:249 | reading `str(n)` back as digits gives `n` |
| Text.SplitJoinRoundTrip | AnkiPy/app.py:278 | splitting the `\x1f`-joined field values at `\x1f` gives the values back when none contains the separator |
| Text.LastOccurrence | AnkiPy/app.py:374 | the index of the last occurrence of the marker: it occurs there and at no later index; none exactly when it occurs nowhere |
| Format.ParseFormat | AnkiPy/app.py:372-373 | the parse of a format string fails only with BadFormat; its pieces have one-digit slots and are no more than the characters |
| Format.Render | AnkiPy/app.py:372-373 | filling the pieces succeeds exactly when every slot has a field |
| Format.Substitute | AnkiPy/app.py:372-373 | `str.format` succeeds exactly when the string parses and every placeholder has a field; otherwise BadFormat |
| Format.ParseThenUnparse | AnkiPy/app.py:372-373 | a shorthand that parses as a format string is given back by printing its pieces |
| Format.UnparseThenParse | AnkiPy/app.py:372-373 | printing one-digit placeholders and literals and parsing the result gives the pieces back |
| Format.SubstituteLiteral | AnkiPy/app.py:372-373 | text without braces passes through `str.format` unchanged, in front of the rest's substitution |
| Format.SubstitutePlaceholder | AnkiPy/app.py:372-373 | `{d}` becomes `{{fields[d]}}`; an index past the last field is an error |
| Format.SubstituteWithoutBraces | AnkiPy/app.py:372-373 | a template without braces is left as it is |
| Blobs.Get | AnkiPy/app.py:249-250 | the lookup succeeds exactly when the key is present, with that key's entry |
| Blobs.Put | AnkiPy/app.py:249 | `b[k] = v`: the keys become the old keys plus `k`; the length grows only for a new key |
| Blobs.PutGet | AnkiPy/app.py:249 | after `b[k] = v`, `k` maps to `v` and every other key keeps its entry |
| Blobs.PutNewKey | AnkiPy/app.py:249 | a new key is appended after the existing entries, in order |
| Blobs.PutUnique | AnkiPy/app.py:249 | assignment keeps the keys of a JSON object unique |
| Records.IdSets.Add | AnkiPy/app.py:314-322 | `self.ids[...].add` (lines 314 and 322): adding to one namespace grows it by that key and leaves the other four unchanged |
| Templates.Numbered | AnkiPy/app.py:380-385 | a generated template's name reads back as its one-based position, `ord` is the index, question and answer are the given ones, and the rest of the default template is kept |
| Templates.BuildFields | AnkiPy/app.py:353-359 | one field per name, in order, with ordinal i and the default field's other settings |
| Templates.ResolveTemplates | AnkiPy/app.py:365-387 | on success one template per entry, each the resolution of its entry; an error exactly when some entry fails |
| Templates.SplitShorthand | AnkiPy/app.py:374-375 | fails exactly when the marker does not occur; otherwise the answer starts with `{{FrontSide}}`, question + answer without that prefix is the input, and the answer's marker is the last one |
| Templates.ResolveTemplate | AnkiPy/app.py:366-387 | a dict is kept verbatim; a pair gives its question and answer; a shorthand succeeds exactly when substitution succeeds and a marker occurs; generated templates are named `Card i+1` with `ord = i`; a shorthand's question and answer are the split of `SplitShorthand`, at the last marker |
| Templates.ResolveFrom | AnkiPy/app.py:365-387 | the loop succeeds exactly when every template resolves, giving one template per entry in order |
| Templates.ResolveFromFirstError | AnkiPy/app.py:365-387 | the first template that fails decides the error |
| Templates.FieldsRoundTrip | AnkiPy/app.py:353-359 | the built field list carries the requested names in order, with ordinals 0..n-1 |
| Templates.GeneratedTemplatesSequential | AnkiPy/app.py:353-387 | fields and generated templates carry ordinals 0..n-1 |
| Templates.ShorthandScenario | AnkiPy/app.py:372-375 | `"{0} - {1} \n<hr id=answer>\n {2}"` over English, Spanish, French gives question `{{English}} - {{Spanish}} \n` and answer `{{FrontSide}}<hr id=answer>\n {{French}}` |
| Allocator.NextFree | AnkiPy/app.py:311-313 | the probe stops at the least integer from the seed on that is not in the used set |
| Allocator.FirstFresh | AnkiPy/app.py:319-321 | the draw loop stops at the first draw not in the guid set |
| Allocator.AllocId | AnkiPy/app.py:310-316 | `_new_id`: an id at least the millisecond seed and not used before; the namespace grows by exactly that id; every id between the seed and it was taken |
| Allocator.AllocGuid | AnkiPy/app.py:318-324 | `_new_guid`: one of the drawn guids, not used before; only the guid namespace grows |
| Allocator.SeedIds | AnkiPy/app.py:193-213 | `did`/`mid` hold exactly string keys, the keys of the JSON objects; `nid`, `guid` and `cid` hold exactly the stored ids and guids |
| Allocator.SeedConsistent | AnkiPy/app.py:193-213 | seeding establishes the invariant on every well-formed file |
| Allocator.AllocConsistent | AnkiPy/app.py:310-316 | allocation keeps the invariant |
| Allocator.GuidConsistent | AnkiPy/app.py:318-324 | drawing a guid keeps the invariant |
| Allocator.NewKeyClashesOnlyWithLoaded | AnkiPy/app.py:201-204 | under the invariant, `str(new id)` can only clash with a key loaded from the file |
| Allocator.LoadedKeyClash | AnkiPy/app.py:203-204 | with the loaded key `"5"` and the clock at 5 ms, the new id 5 has the taken key `"5"` |
| Decks.LastDeckNamed | AnkiPy/app.py:235-238 | the index of the last entry with the name, or none exactly when no entry has it |
| Decks.DeckSpec | AnkiPy/app.py:215-257 | no `col` row and `create=False`: NotFound, no change; a present name with `create=True`: AlreadyExists, no change; a present name otherwise: the last such entry's handle, no change; a missing name: a fresh did, stored under `str(did)`; `create=None` never fails; rows and other namespaces are unchanged |
| Decks.DeckHandleNamed | AnkiPy/app.py:240-257 | a returned handle names an entry of the resulting decks object with the handle's id |
| Decks.CreatedDeckStored | AnkiPy/app.py:245-257 | a created deck is stored under `str(id)` with id and name; every other key keeps its entry; a new key is appended |
| Decks.DeckAddsOnlyIds | AnkiPy/app.py:215-257 | `deck` only adds integer ids to `did`, never a string key |
| Decks.DeckKeepsEntries | AnkiPy/app.py:215-257 | under the invariant, with a `col` row and no loaded key that is the decimal form of an id at or above the clock, `deck` keeps every stored deck entry in place |
| Decks.DeckConsistent | AnkiPy/app.py:215-257 | `deck` keeps the invariant |
| Decks.NewThenGet | AnkiPy/app.py:259-263 | after `new_deck(n)` succeeds, `get_deck(n)` returns the same handle and changes nothing |
| Decks.NewTwiceFails | AnkiPy/app.py:259-260 | a second `new_deck(n)` fails with AlreadyExists and changes nothing |
| Models.FirstModelNamed | AnkiPy/app.py:330-332 | the index of the first entry with the name, or none exactly when no entry has it |
| Models.ModelNamed | AnkiPy/app.py:326-334 | no `col` row: an error; otherwise the first model with the name, or NotFound exactly when none has it |
| Models.NewModelEntry | AnkiPy/app.py:392-399 | the model's field list gives back the requested names with ordinals 0, 1, 2, ...; it has the name, id, time in seconds, templates and style sheet, and the default model's other settings |
| Models.NewModelSpec | AnkiPy/app.py:336-404 | no `col` row: an error, no change; a name equal to a key: AlreadyExists, no change; otherwise a fresh mid is taken even if a later step fails; success exactly when templates and style sheet resolve; the model has the name, the fields in order with ordinals, the time, the templates, the style sheet, and is stored under `str(mid)` |
| Models.FirstNamedAppend | AnkiPy/app.py:330-332 | appending an entry keeps an earlier first match and otherwise makes the new entry the match |
| Models.ModelLookupAfterNew | AnkiPy/app.py:345-402 | after `new_model(n)` under a new key, `_model(n)` returns the new model, unless an older model is named `n`, which shadows it |
| Models.CreatedModelStored | AnkiPy/app.py:349-401 | the new model is stored under `str(mid)`; every other key keeps its entry; a new key is appended |
| Models.ShorthandModelScenario | AnkiPy/app.py:365-390 | the model of the project's tests gets the three fields, the single template `Card 1` with the expected question and answer, and the given style sheet or else Basic's |
| Models.NewModelConsistent | AnkiPy/app.py:336-404 | `new_model` keeps the invariant |
| Notes.InsertNote | AnkiPy/app.py:283-285 | the insert refuses exactly a taken primary key, so the stored note ids stay pairwise distinct exactly when they were |
| Notes.InsertCard | AnkiPy/app.py:305-307 | the insert refuses exactly a taken primary key, so the stored card ids stay pairwise distinct exactly when they were |
| Notes.PlaceCards | AnkiPy/app.py:290-307 | the card loop leaves notes and all namespaces but `did` unchanged, keeps the models object of an existing `col` row, and only appends cards |
| Notes.NewNote | AnkiPy/app.py:266-281 | the note row: id, guid, model id, time, verbatim tags, sort field and its digest; the stored fields split back to the values |
| Notes.CleanFieldsSplit | AnkiPy/app.py:278 | joined values without the separator split back to the values |
| Notes.AddItemSpec | AnkiPy/app.py:265-308 | no values: IndexError, no change; unknown model: its error after the nid is taken, no row written; rows are only appended, at most one note |
| Notes.StoreNote | AnkiPy/app.py:265-288 | no values: IndexError, no change; unknown model: its error after the nid is taken, no row written; on success exactly one note appended with the returned note id, a card id taken in this call and not below the clock, the model's template count; decks, models and cards unchanged |
| Notes.SharedCardIdAtMostOne | AnkiPy/app.py:287-307 | with one card id per note, the loop never stores more than one card and never succeeds for two or more templates |
| Notes.PlaceFirstCard | AnkiPy/app.py:290-307 | the card of template k gets the card id, the note id, ordinal k and the resolved deck's id; the next template fails |
| Notes.PlaceCardsConsistent | AnkiPy/app.py:290-307 | the card loop keeps the invariant |
| Notes.AddItemNote | AnkiPy/app.py:265-285 | under the invariant, exactly one note is appended: a fresh id not below the clock, a fresh drawn guid, the model's id, the joined values |
| Notes.AddItemCardLoop | AnkiPy/app.py:265-289 | under the invariant, the card loop starts with one note appended, no new card, and a card id no stored card has |
| Notes.AddItemCards | AnkiPy/app.py:287-308 | under the invariant: no card for a model without templates; IndexError with no card when the first deck name is missing; otherwise one card with the note id, ordinal 0, the time and a fresh id not below the clock; for one template that card lies in a deck of the requested name; success exactly for one template; for two or more, IntegrityError on the second card, or IndexError when the second deck name is missing |
| Notes.StoreNoteConsistent | AnkiPy/app.py:265-288 | the steps before the card loop keep the invariant |
| Notes.PlaceCardsFresh | AnkiPy/app.py:290-307 | the card loop with a fresh card id per template: notes unchanged, cards only appended, and on success one card per remaining template with the note id, its ordinal and the time |
| Notes.FreshStep | AnkiPy/app.py:290-307 | one iteration of that loop, for a template other than the last, under the invariant: the loop from here equals the loop from the next template after the step, the card is stored in a deck named for its template, the next card id is unused, and the invariant and the stored decks are kept |
| Notes.FreshCards | AnkiPy/app.py:290-307 | under the invariant, with an unused card id and a deck name for every template, that loop succeeds with some final state, keeps the card ids distinct, keeps the stored deck entries in place, and puts every card in a deck named for its template |
| Notes.AddItemIntendedCards | AnkiPy/app.py:265-308 | under the invariant and `NoLoadedClockKeys`, with at least one value, a known model and a deck name for every template, `add_item` with a fresh card id per template succeeds and appends one note and exactly one card per template: card k has the note's id, ordinal k, the time and the id of a deck named by the k-th deck name; card ids stay distinct |
| Notes.AddItemConsistent | AnkiPy/app.py:265-308 | `add_item` keeps the invariant, whatever the outcome |
| App.AnkiDatabase.constructor | AnkiPy/app.py:20-30 | opening a well-formed file gives the seeded namespaces and the invariant |
| App.AnkiDatabase.Init | AnkiPy/app.py:32-213 | marks the tables present and seeds every namespace with loops over the rows, as `SeedIds` |
| App.AnkiDatabase.NewId | AnkiPy/app.py:310-316 | the probing loop returns and records the id `AllocId` gives |
| App.AnkiDatabase.NewGuid | AnkiPy/app.py:318-324 | the drawing loop returns and records the guid `AllocGuid` gives |
| App.AnkiDatabase.Deck | AnkiPy/app.py:215-257 | the scan and update agree with `DeckSpec`: same state, success exactly when it succeeds, a fresh handle with its id and name |
| App.AnkiDatabase.LastDeck | AnkiPy/app.py:235-238 | the scan keeps the last entry with the name, as `LastDeckNamed` |
| App.AnkiDatabase.NewDeck | AnkiPy/app.py:259-260 | `deck` with `create=True`: the state, the success and the error are `DeckSpec`'s, so an existing name fails with AlreadyExists |
| App.AnkiDatabase.GetDeck | AnkiPy/app.py:262-263 | `deck` with `create=False`: the state, the success and the error are `DeckSpec`'s, so a missing `col` row fails with NotFound |
| App.AnkiDatabase.Model | AnkiPy/app.py:326-334 | the scan returns what `ModelNamed` gives |
| App.AnkiDatabase.NewModel | AnkiPy/app.py:336-404 | the field and template loops agree with `NewModelSpec` |
| App.AnkiDatabase.FieldList | AnkiPy/app.py:353-359 | field i is the default field renamed to the i-th name with ordinal i, as `BuildFields` |
| App.AnkiDatabase.TemplateList | AnkiPy/app.py:365-387 | the templates resolved in order, the first failing one deciding the error, as `ResolveTemplates` |
| App.AnkiDatabase.AddItem | AnkiPy/app.py:265-308 | agrees with `AddItemSpec` |
| App.AnkiDatabase.AddNote | AnkiPy/app.py:265-288 | the steps before the card loop agree with `StoreNote` |
| App.AnkiDatabase.AddCards | AnkiPy/app.py:287-307 | the card loop agrees with `PlaceCards` |
| App.AnkiDeck.constructor | AnkiPy/app.py:408-414 | the handle keeps the deck's name and id and its session |
| App.AnkiDeck.AddItem | AnkiPy/app.py:418-419 | the session's `add_item` with `deck=self.name`, or with `decks` when given |

## Findings

| source | as written | input that shows it | evidently intended | confidence | as-written member | corrected member |
|---|---|---|---|---|---|---|
| AnkiPy/app.py:288-307 | one card id is taken per note (line 288) and every card of the note is inserted with it (lines 305-307), while `cards.id` is the primary key (line 39) | a model with two templates and a deck name for each: the second insert fails with IntegrityError after the note and one card are stored | a fresh card id for every card, so the note gets one card per template | not executed | Notes.SharedCardIdAtMostOne | Notes.AddItemIntendedCards |

## Left out

- The `Anki` subclass (AnkiPy/app.py:422-447) is file handling: unpacking and repacking the `.apkg` zip, temporary directories, `atexit` and the `media` entry.
- The SQL text is not modelled. The DDL becomes the `schema` flag, and only the rows the builder reads or writes are kept. The note columns usn, flags and data, the scheduling columns of cards, and the graves and revlog tables are all absent.
- JSON encoding and decoding are not modelled. The decoded objects are kept as ordered key/entry lists.
- Commits and transactions are not modelled. The state is what the connection itself would read back.
- The default entries (`AnkiPy/tools/defaults.py`) are opaque values (`Records.Defaults`). Their settings that the builder copies without reading are opaque strings (`rest`, `conf`).
- `BeautifulSoup(...).text` and `sha1(...).hexdigest()` are the functions of `Records.Externals`. They are left uninterpreted.
- `time()` is the parameter `nowMs`, read once per call. Every seed and every `mod` column of one call uses that one reading.
- `guid64()` is the sequence of draws `draws`. `Allocator.AllocGuid` requires that one draw is unused, and nothing is claimed about termination beyond that.
- `str.format` is modelled only for one-digit positional placeholders `{d}` and the escapes `{{` and `}}`. Every other form is treated as an error (`BadFormat`), although Python accepts some of them (`{}`, `{10}`, conversions and format specs).
- A template given as a list or tuple is modelled as exactly a pair. A shorter sequence, which raises IndexError in Python, and template values of other types are not modelled.
- `new_model` tests `cursor is None`, which never holds. A missing `col` row shows up as the TypeError of `fetchone()[0]`, modelled as `NoCollection`.
- Keyword arguments are explicit parameters, with the Python defaults `model='Basic'` and `tags=''` left to the caller. `AnkiDeck.add_item` called with its own `deck=` argument, which raises TypeError in Python, is not modelled.
- A file with more than one `col` row is not modelled. `init` would seed from the last one.
