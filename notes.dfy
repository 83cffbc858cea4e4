/**
 * The note/card composer `add_item`: one note row for the field values and
 * one card row per template of the note's model, each card placed in the
 * deck named for it (created when missing).
 */
module Notes {
  import opened Wrappers
  import opened Text
  import opened Blobs
  import opened Errors
  import opened Records
  import opened Allocator
  import opened Decks
  import opened Models

  /** Where the cards go: `decks=[...]`, one name per template, or `deck=...` (None when absent) for all. */
  datatype CardPlan = PerTemplate(names: seq<DeckName>) | Single(name: DeckName)

  /** The deck name for the card of template `k`; `decks[k]` past the end is an IndexError. */
  function Target(plan: CardPlan, k: nat): (r: Result<DeckName, Error>)
    ensures plan.Single? ==> r == Ok(plan.name)
    ensures plan.PerTemplate? ==> (r.Ok? <==> k < |plan.names|)
    ensures plan.PerTemplate? && r.Ok? ==> r.value == plan.names[k]
    ensures r.Err? ==> r.error == MissingArgument
  {
    match plan
    case Single(name) => Ok(name)
    case PerTemplate(names) => if k < |names| then Ok(names[k]) else Err(MissingArgument)
  }

  predicate HasNoteId(notes: seq<Note>, id: int)
  {
    exists i :: 0 <= i < |notes| && notes[i].id == id
  }

  predicate HasCardId(cards: seq<Card>, id: int)
  {
    exists i :: 0 <= i < |cards| && cards[i].id == id
  }

  /** No two rows share a primary key. */
  predicate DistinctNoteIds(notes: seq<Note>)
  {
    forall i, j :: 0 <= i < j < |notes| ==> notes[i].id != notes[j].id
  }

  predicate DistinctCardIds(cards: seq<Card>)
  {
    forall i, j :: 0 <= i < j < |cards| ==> cards[i].id != cards[j].id
  }

  /** `INSERT INTO notes`: `id` is the primary key, so a second row with the same id is refused. */
  function InsertNote(s: State, n: Note): (r: Result<State, Error>)
    ensures r.Err? <==> HasNoteId(s.notes, n.id)
    ensures r.Err? ==> r.error == DuplicateId
    ensures r.Ok? ==> r.value == s.(notes := s.notes + [n])
    // the table keeps its primary keys distinct
    ensures r.Ok? ==> (DistinctNoteIds(r.value.notes) <==> DistinctNoteIds(s.notes))
  {
    if HasNoteId(s.notes, n.id) then Err(DuplicateId)
    else
      var t := s.notes + [n];
      assert forall i :: 0 <= i < |s.notes| ==> t[i] == s.notes[i] && t[i].id != n.id;
      Ok(s.(notes := t))
  }

  /** `INSERT INTO cards`: `id` is the primary key, so a second row with the same id is refused. */
  function InsertCard(s: State, c: Card): (r: Result<State, Error>)
    ensures r.Err? <==> HasCardId(s.cards, c.id)
    ensures r.Err? ==> r.error == DuplicateId
    ensures r.Ok? ==> r.value == s.(cards := s.cards + [c])
    // the table keeps its primary keys distinct
    ensures r.Ok? ==> (DistinctCardIds(r.value.cards) <==> DistinctCardIds(s.cards))
  {
    if HasCardId(s.cards, c.id) then Err(DuplicateId)
    else
      var t := s.cards + [c];
      assert forall i :: 0 <= i < |s.cards| ==> t[i] == s.cards[i] && t[i].id != c.id;
      Ok(s.(cards := t))
  }

  /**
   * The card loop of `add_item` from template `k` on, with the note id `nid`
   * and the single card id `cid` allocated before the loop: resolve the deck
   * (`deck(name)` with create=None), then insert the card.
   */
  function PlaceCards(s: State, d: Defaults, plan: CardPlan, nid: int, cid: int, n: nat, k: nat, nowMs: nat): (r: (Result<(), Error>, State))
    requires k <= n
    ensures r.1.notes == s.notes && r.1.ids.(did := s.ids.did) == s.ids
    ensures |s.cards| <= |r.1.cards| && r.1.cards[..|s.cards|] == s.cards
    ensures s.col.Some? ==> r.1.col.Some? && r.1.col.value.models == s.col.value.models
    decreases n - k
  {
    if k == n then (Ok(()), s)
    else match Target(plan, k)
      case Err(e) => (Err(e), s)
      case Ok(name) =>
        var (h, s1) := DeckSpec(s, d, name, Either, nowMs);
        match InsertCard(s1, Card(cid, nid, h.value.id, k, nowMs / 1000))
        case Err(e) => (Err(e), s1)
        case Ok(s2) =>
          var r := PlaceCards(s2, d, plan, nid, cid, n, k + 1, nowMs);
          assert r.1.cards[..|s.cards|] == r.1.cards[..|s2.cards|][..|s.cards|];
          r
  }

  /** The note row of `add_item` for the field values `args` (at least one). */
  function NewNote(ext: Externals, nid: int, guid: string, mid: int, args: seq<string>, tags: string, nowMs: nat): (n: Note)
    requires |args| > 0
    ensures n.id == nid && n.guid == guid && n.mid == mid && n.mod == nowMs / 1000 && n.tags == tags
    ensures n.sfld == ext.htmlText(args[0]) && n.csum == ext.sha1Hex(n.sfld)
    ensures (forall i :: 0 <= i < |args| ==> UnitSeparator !in args[i]) ==> Split(n.flds, UnitSeparator) == args
  {
    var sfld := ext.htmlText(args[0]);
    var flds := Join(args, UnitSeparator);
    CleanFieldsSplit(args);
    Note(nid, guid, mid, nowMs / 1000, tags, flds, sfld, ext.sha1Hex(sfld))
  }

  lemma CleanFieldsSplit(args: seq<string>)
    requires |args| > 0
    ensures (forall i :: 0 <= i < |args| ==> UnitSeparator !in args[i]) ==> Split(Join(args, UnitSeparator), UnitSeparator) == args
  {
    if forall i :: 0 <= i < |args| ==> UnitSeparator !in args[i] {
      SplitJoinRoundTrip(args, UnitSeparator);
    }
  }

  /**
   * `add_item(*args, model=modelName, tags=tags, deck=.../decks=...)` with
   * the clock at `nowMs` and `guid64` drawing `draws`: the outcome and the
   * state afterwards. Nothing is undone when a step fails.
   */
  function AddItemSpec(s: State, d: Defaults, ext: Externals, args: seq<string>, modelName: string, tags: string,
                       plan: CardPlan, nowMs: nat, draws: seq<string>): (r: (Result<(), Error>, State))
    requires exists j :: 0 <= j < |draws| && Str(draws[j]) !in s.ids.guid
    // `args[0]` is read first: no field values, no change
    ensures |args| == 0 ==> r == (Err(MissingArgument), s)
    // an unknown model fails after the note id was taken, before any row is written
    ensures |args| > 0 && ModelNamed(s, modelName).Err? ==>
      && r.0 == Err(ModelNamed(s, modelName).error)
      && exists nid: nat :: nid >= nowMs && Num(nid) !in s.ids.nid && r.1 == s.(ids := s.ids.Add(Nid, Num(nid)))
    // no row is ever removed or rewritten
    ensures |s.notes| <= |r.1.notes| <= |s.notes| + 1 && r.1.notes[..|s.notes|] == s.notes
    ensures |s.cards| <= |r.1.cards| && r.1.cards[..|s.cards|] == s.cards
  {
    var (stored, s4) := StoreNote(s, ext, args, modelName, tags, nowMs, draws);
    if stored.Err? then (Err(stored.error), s4)
    else
      var (nid, cid, n) := stored.value;
      PlaceCards(s4, d, plan, nid, cid, n, 0, nowMs)
  }

  /**
   * The part of `add_item` before its card loop: take a note id, look up the
   * model, draw a guid, insert the note row and take the card id. On success
   * it gives the note id, the card id and the number of templates.
   */
  function StoreNote(s: State, ext: Externals, args: seq<string>, modelName: string, tags: string,
                     nowMs: nat, draws: seq<string>): (r: (Result<(int, int, nat), Error>, State))
    requires exists j :: 0 <= j < |draws| && Str(draws[j]) !in s.ids.guid
    ensures |args| == 0 ==> r == (Err(MissingArgument), s)
    ensures |args| > 0 && ModelNamed(s, modelName).Err? ==>
      && r.0 == Err(ModelNamed(s, modelName).error)
      && exists nid: nat :: nid >= nowMs && Num(nid) !in s.ids.nid && r.1 == s.(ids := s.ids.Add(Nid, Num(nid)))
    ensures r.1.col == s.col && r.1.cards == s.cards && r.1.ids.did == s.ids.did
    ensures |s.notes| <= |r.1.notes| <= |s.notes| + 1 && r.1.notes[..|s.notes|] == s.notes
    ensures r.0.Ok? ==> |r.1.notes| == |s.notes| + 1 && r.1.notes[|s.notes|].id == r.0.value.0
    ensures r.0.Ok? ==> Num(r.0.value.1) in r.1.ids.cid && r.0.value.1 >= nowMs && Num(r.0.value.1) !in s.ids.cid
    ensures r.0.Ok? ==> r.0.value.2 == |ModelNamed(s, modelName).value.tmpls|
  {
    if |args| == 0 then (Err(MissingArgument), s)
    else
      var (nid, s1) := AllocId(s, Nid, nowMs);
      match ModelNamed(s1, modelName)
      case Err(e) => (Err(e), s1)
      case Ok(m) =>
        var (guid, s2) := AllocGuid(s1, draws);
        match InsertNote(s2, NewNote(ext, nid, guid, m.id, args, tags, nowMs))
        case Err(e) => (Err(e), s2)
        case Ok(s3) =>
          var (cid, s4) := AllocId(s3, Cid, nowMs);
          (Ok((nid, cid, |m.tmpls|)), s4)
  }

  /** One iteration of the card loop: resolve the deck, then insert the card or stop. */
  lemma PlaceCardsStep(s: State, d: Defaults, plan: CardPlan, nid: int, cid: int, n: nat, k: nat, nowMs: nat)
    requires k < n && Target(plan, k).Ok?
    ensures var (h, s1) := DeckSpec(s, d, Target(plan, k).value, Either, nowMs);
            var c := Card(cid, nid, h.value.id, k, nowMs / 1000);
            PlaceCards(s, d, plan, nid, cid, n, k, nowMs)
              == if HasCardId(s1.cards, cid) then (Err(DuplicateId), s1)
                 else PlaceCards(s1.(cards := s1.cards + [c]), d, plan, nid, cid, n, k + 1, nowMs)
  {
  }

  /**
   * Every card of a note gets the same id `cid` and `cards.id` is the primary
   * key, so the card loop never stores more than one card and never succeeds
   * for more than one template.
   */
  lemma SharedCardIdAtMostOne(s: State, d: Defaults, plan: CardPlan, nid: int, cid: int, n: nat, k: nat, nowMs: nat)
    requires k <= n
    ensures var r := PlaceCards(s, d, plan, nid, cid, n, k, nowMs);
            (r.0.Ok? ==> n - k <= 1) && |r.1.cards| <= |s.cards| + 1
  {
    if k < n && Target(plan, k).Ok? {
      var (h, s1) := DeckSpec(s, d, Target(plan, k).value, Either, nowMs);
      var c := Card(cid, nid, h.value.id, k, nowMs / 1000);
      if !HasCardId(s1.cards, cid) {
        var s2 := s1.(cards := s1.cards + [c]);
        assert PlaceCards(s, d, plan, nid, cid, n, k, nowMs) == PlaceCards(s2, d, plan, nid, cid, n, k + 1, nowMs);
        if k + 1 < n && Target(plan, k + 1).Ok? {
          var (h2, s3) := DeckSpec(s2, d, Target(plan, k + 1).value, Either, nowMs);
          assert s3.cards[|s1.cards|] == c;
          assert HasCardId(s3.cards, cid);
        }
      }
    }
  }

  /**
   * Placing the card of template `k` with an unused card id: the card is
   * stored with ordinal `k`, the note id and the id of the deck `deck`
   * resolved for it, and the loop stops there unless `k` was the last template.
   */
  lemma PlaceFirstCard(s: State, d: Defaults, plan: CardPlan, nid: int, cid: int, n: nat, k: nat, nowMs: nat)
    requires k < n && Target(plan, k).Ok? && !HasCardId(s.cards, cid)
    ensures var (h, s1) := DeckSpec(s, d, Target(plan, k).value, Either, nowMs);
            var r := PlaceCards(s, d, plan, nid, cid, n, k, nowMs);
            && r.1.cards == s.cards + [Card(cid, nid, h.value.id, k, nowMs / 1000)]
            && (r.0.Ok? <==> n == k + 1)
            && (n == k + 1 ==> r.1 == s1.(cards := s1.cards + [Card(cid, nid, h.value.id, k, nowMs / 1000)]))
            && (n > k + 1 ==> r.0 == Err(if Target(plan, k + 1).Ok? then DuplicateId else MissingArgument))
  {
    var (h, s1) := DeckSpec(s, d, Target(plan, k).value, Either, nowMs);
    var c := Card(cid, nid, h.value.id, k, nowMs / 1000);
    var s2 := s1.(cards := s1.cards + [c]);
    assert PlaceCards(s, d, plan, nid, cid, n, k, nowMs) == PlaceCards(s2, d, plan, nid, cid, n, k + 1, nowMs);
    if k + 1 < n && Target(plan, k + 1).Ok? {
      var (h2, s3) := DeckSpec(s2, d, Target(plan, k + 1).value, Either, nowMs);
      assert s3.cards[|s1.cards|] == c;
      assert HasCardId(s3.cards, cid);
    }
  }

  /** Inserting a card whose id is in the cid namespace keeps the invariant. */
  lemma CardKeepsConsistent(s: State, d: Defaults, c: Card)
    requires Consistent(s, d) && Num(c.id) in s.ids.cid
    ensures Consistent(s.(cards := s.cards + [c]), d)
  {
  }

  /** The card loop keeps the invariant when its card id was allocated in this session. */
  lemma {:induction false} PlaceCardsConsistent(s: State, d: Defaults, plan: CardPlan, nid: int, cid: int, n: nat, k: nat, nowMs: nat)
    requires k <= n && d.WellFormed() && Consistent(s, d) && Num(cid) in s.ids.cid
    ensures Consistent(PlaceCards(s, d, plan, nid, cid, n, k, nowMs).1, d)
    decreases n - k
  {
    if k < n && Target(plan, k).Ok? {
      var name := Target(plan, k).value;
      DeckConsistent(s, d, name, Either, nowMs);
      var (h, s1) := DeckSpec(s, d, name, Either, nowMs);
      var c := Card(cid, nid, h.value.id, k, nowMs / 1000);
      if !HasCardId(s1.cards, cid) {
        var s2 := s1.(cards := s1.cards + [c]);
        assert Consistent(s2, d);
        PlaceCardsConsistent(s2, d, plan, nid, cid, n, k + 1, nowMs);
      }
    }
  }

  /**
   * Under the invariant, `add_item` with at least one value and a known model
   * stores exactly one new note: a fresh id and guid, the model's id, the
   * values joined by the unit separator, and the digest of the sort field.
   */
  lemma AddItemNote(s: State, d: Defaults, ext: Externals, args: seq<string>, modelName: string, tags: string,
                    plan: CardPlan, nowMs: nat, draws: seq<string>)
    requires exists j :: 0 <= j < |draws| && Str(draws[j]) !in s.ids.guid
    requires Consistent(s, d) && |args| > 0 && ModelNamed(s, modelName).Ok?
    ensures var r := AddItemSpec(s, d, ext, args, modelName, tags, plan, nowMs, draws);
            && |r.1.notes| == |s.notes| + 1
            && var note := r.1.notes[|s.notes|];
            && note == NewNote(ext, note.id, note.guid, ModelNamed(s, modelName).value.id, args, tags, nowMs)
            && note.id >= nowMs && !HasNoteId(s.notes, note.id)
            && note.guid in draws && (forall i :: 0 <= i < |s.notes| ==> s.notes[i].guid != note.guid)
  {
    var (nid, s1) := AllocId(s, Nid, nowMs);
    var m := ModelNamed(s1, modelName).value;
    var (guid, s2) := AllocGuid(s1, draws);
    var note := NewNote(ext, nid, guid, m.id, args, tags, nowMs);
    assert !HasNoteId(s2.notes, nid);
    var s3 := s2.(notes := s2.notes + [note]);
    var (cid, s4) := AllocId(s3, Cid, nowMs);
    var r := AddItemSpec(s, d, ext, args, modelName, tags, plan, nowMs, draws);
    assert r == PlaceCards(s4, d, plan, nid, cid, |m.tmpls|, 0, nowMs);
    assert r.1.notes == s3.notes;
  }

  /**
   * The cards `add_item` stores, under the invariant and with a known model
   * of `n` templates: none for n = 0; otherwise the card of template 0 (note
   * id, ordinal 0, a card id no stored card has), and a success only when
   * n = 1. For n >= 2 the second card repeats the card id and is refused.
   */
  lemma AddItemCards(s: State, d: Defaults, ext: Externals, args: seq<string>, modelName: string, tags: string,
                     plan: CardPlan, nowMs: nat, draws: seq<string>)
    requires exists j :: 0 <= j < |draws| && Str(draws[j]) !in s.ids.guid
    requires Consistent(s, d) && |args| > 0 && ModelNamed(s, modelName).Ok?
    ensures var r := AddItemSpec(s, d, ext, args, modelName, tags, plan, nowMs, draws);
            var n := |ModelNamed(s, modelName).value.tmpls|;
            && |r.1.notes| == |s.notes| + 1
            && (n == 0 ==> r.0.Ok? && r.1.cards == s.cards)
            && (n > 0 && Target(plan, 0).Err? ==> r.0 == Err(MissingArgument) && r.1.cards == s.cards)
            && (n > 0 && Target(plan, 0).Ok? ==>
                  && |r.1.cards| == |s.cards| + 1
                  && var c := r.1.cards[|s.cards|];
                  && c.nid == r.1.notes[|s.notes|].id && c.ord == 0 && c.mod == nowMs / 1000
                  && c.id >= nowMs && !HasCardId(s.cards, c.id)
                  && (r.0.Ok? <==> n == 1)
                  && (n == 1 ==> exists j :: 0 <= j < |r.1.col.value.decks| && r.1.col.value.decks[j].1.id == c.did
                                   && r.1.col.value.decks[j].1.name == Target(plan, 0).value)
                  && (n > 1 ==> r.0 == Err(if Target(plan, 1).Ok? then DuplicateId else MissingArgument)))
  {
    var nid, cid, s4 := AddItemCardLoop(s, d, ext, args, modelName, tags, plan, nowMs, draws);
    var n := |ModelNamed(s, modelName).value.tmpls|;
    if n > 0 && Target(plan, 0).Ok? {
      PlaceFirstCard(s4, d, plan, nid, cid, n, 0, nowMs);
      DeckHandleNamed(s4, d, Target(plan, 0).value, Either, nowMs);
    }
  }

  /** Under the invariant, `add_item` reaches its card loop with the new note stored and an unused card id. */
  lemma AddItemCardLoop(s: State, d: Defaults, ext: Externals, args: seq<string>, modelName: string, tags: string,
                        plan: CardPlan, nowMs: nat, draws: seq<string>) returns (nid: int, cid: int, s4: State)
    requires exists j :: 0 <= j < |draws| && Str(draws[j]) !in s.ids.guid
    requires Consistent(s, d) && |args| > 0 && ModelNamed(s, modelName).Ok?
    ensures AddItemSpec(s, d, ext, args, modelName, tags, plan, nowMs, draws)
         == PlaceCards(s4, d, plan, nid, cid, |ModelNamed(s, modelName).value.tmpls|, 0, nowMs)
    ensures |s4.notes| == |s.notes| + 1 && s4.notes[|s.notes|].id == nid
    ensures s4.cards == s.cards && cid >= nowMs && !HasCardId(s.cards, cid)
  {
    var a1 := AllocId(s, Nid, nowMs);
    var s1 := a1.1;
    nid := a1.0;
    var m := ModelNamed(s1, modelName).value;
    var (guid, s2) := AllocGuid(s1, draws);
    var note := NewNote(ext, nid, guid, m.id, args, tags, nowMs);
    assert !HasNoteId(s2.notes, nid);
    var s3 := s2.(notes := s2.notes + [note]);
    var a4 := AllocId(s3, Cid, nowMs);
    cid, s4 := a4.0, a4.1;
    assert !HasCardId(s4.cards, cid);
  }

  /** `add_item` keeps the collection invariant, whatever the outcome. */
  lemma AddItemConsistent(s: State, d: Defaults, ext: Externals, args: seq<string>, modelName: string, tags: string,
                          plan: CardPlan, nowMs: nat, draws: seq<string>)
    requires exists j :: 0 <= j < |draws| && Str(draws[j]) !in s.ids.guid
    requires d.WellFormed() && Consistent(s, d)
    ensures Consistent(AddItemSpec(s, d, ext, args, modelName, tags, plan, nowMs, draws).1, d)
  {
    if |args| > 0 {
      var (nid, s1) := AllocId(s, Nid, nowMs);
      AllocConsistent(s, d, Nid, nowMs);
      if ModelNamed(s1, modelName).Ok? {
        var m := ModelNamed(s1, modelName).value;
        var (guid, s2) := AllocGuid(s1, draws);
        GuidConsistent(s1, d, draws);
        var note := NewNote(ext, nid, guid, m.id, args, tags, nowMs);
        if !HasNoteId(s2.notes, nid) {
          var s3 := s2.(notes := s2.notes + [note]);
          assert Consistent(s3, d);
          var (cid, s4) := AllocId(s3, Cid, nowMs);
          AllocConsistent(s3, d, Cid, nowMs);
          PlaceCardsConsistent(s4, d, plan, nid, cid, |m.tmpls|, 0, nowMs);
        }
      }
    }
  }

  /** The steps of `add_item` before its card loop keep the invariant. */
  lemma StoreNoteConsistent(s: State, d: Defaults, ext: Externals, args: seq<string>, modelName: string, tags: string,
                            nowMs: nat, draws: seq<string>)
    requires exists j :: 0 <= j < |draws| && Str(draws[j]) !in s.ids.guid
    requires Consistent(s, d)
    ensures Consistent(StoreNote(s, ext, args, modelName, tags, nowMs, draws).1, d)
  {
    if |args| > 0 {
      var (nid, s1) := AllocId(s, Nid, nowMs);
      AllocConsistent(s, d, Nid, nowMs);
      if ModelNamed(s1, modelName).Ok? {
        var m := ModelNamed(s1, modelName).value;
        var (guid, s2) := AllocGuid(s1, draws);
        GuidConsistent(s1, d, draws);
        var note := NewNote(ext, nid, guid, m.id, args, tags, nowMs);
        if !HasNoteId(s2.notes, nid) {
          var s3 := s2.(notes := s2.notes + [note]);
          assert Consistent(s3, d);
          AllocConsistent(s3, d, Cid, nowMs);
        }
      }
    }
  }

  /**
   * The card loop as evidently intended: the card of template `k` takes the
   * id `cid`, and every further template takes a fresh card id of its own.
   */
  function PlaceCardsFresh(s: State, d: Defaults, plan: CardPlan, nid: int, cid: int, n: nat, k: nat, nowMs: nat): (r: (Result<(), Error>, State))
    requires k <= n
    ensures r.1.notes == s.notes
    ensures |s.cards| <= |r.1.cards| && r.1.cards[..|s.cards|] == s.cards
    // on success: one card per template from k on, with the note id, its ordinal and the time
    ensures r.0.Ok? ==> |r.1.cards| == |s.cards| + (n - k)
    ensures r.0.Ok? ==> forall i :: |s.cards| <= i < |r.1.cards| ==>
              r.1.cards[i].nid == nid && r.1.cards[i].ord == k + i - |s.cards| && r.1.cards[i].mod == nowMs / 1000
    decreases n - k
  {
    if k == n then (Ok(()), s)
    else match Target(plan, k)
      case Err(e) => (Err(e), s)
      case Ok(name) =>
        var (h, s1) := DeckSpec(s, d, name, Either, nowMs);
        var c := Card(cid, nid, h.value.id, k, nowMs / 1000);
        match InsertCard(s1, c)
        case Err(e) => (Err(e), s1)
        case Ok(s2) =>
          if k + 1 == n then
            CardsAppended(s.cards, s2.cards, s2.cards, c, nid, n, k, nowMs, true);
            (Ok(()), s2)
          else
            var (next, s3) := AllocId(s2, Cid, nowMs);
            var r := PlaceCardsFresh(s3, d, plan, nid, next, n, k + 1, nowMs);
            CardsAppended(s.cards, s3.cards, r.1.cards, c, nid, n, k, nowMs, r.0.Ok?);
            r
  }

  /** One card `c` appended after `before`, then the rows of the later templates. */
  lemma CardsAppended(before: seq<Card>, mid: seq<Card>, after: seq<Card>, c: Card, nid: int, n: nat, k: nat, nowMs: nat, ok: bool)
    requires k < n && mid == before + [c] && c.nid == nid && c.ord == k && c.mod == nowMs / 1000
    requires |mid| <= |after| && after[..|mid|] == mid
    requires ok ==> |after| == |mid| + (n - (k + 1))
    requires ok ==> forall i :: |mid| <= i < |after| ==>
               after[i].nid == nid && after[i].ord == k + 1 + i - |mid| && after[i].mod == nowMs / 1000
    ensures |before| <= |after| && after[..|before|] == before
    ensures ok ==> |after| == |before| + (n - k)
    ensures ok ==> forall i :: |before| <= i < |after| ==>
              after[i].nid == nid && after[i].ord == k + i - |before| && after[i].mod == nowMs / 1000
  {
    assert after[..|before|] == after[..|mid|][..|before|];
    assert after[|before|] == after[..|mid|][|before|];
  }

  /** `add_item` with the intended card loop. */
  function AddItemIntended(s: State, d: Defaults, ext: Externals, args: seq<string>, modelName: string, tags: string,
                           plan: CardPlan, nowMs: nat, draws: seq<string>): (r: (Result<(), Error>, State))
    requires exists j :: 0 <= j < |draws| && Str(draws[j]) !in s.ids.guid
    ensures |args| == 0 ==> r == (Err(MissingArgument), s)
  {
    var (stored, s4) := StoreNote(s, ext, args, modelName, tags, nowMs, draws);
    if stored.Err? then (Err(stored.error), s4)
    else
      var (nid, cid, n) := stored.value;
      PlaceCardsFresh(s4, d, plan, nid, cid, n, 0, nowMs)
  }

  /**
   * The intended loop from template `k` on, under the invariant, with an
   * unused card id and a deck name for every template: it succeeds with
   * some final state `t`, keeps the card ids distinct and the stored deck
   * entries in place, and puts each card in a deck named for its template.
   */
  lemma {:induction false} FreshCards(s: State, d: Defaults, plan: CardPlan, nid: int, cid: int, n: nat, k: nat, nowMs: nat)
    requires FreshReady(s, d, plan, cid, n, k, nowMs)
    ensures exists t :: FreshDone(s, d, plan, nid, cid, n, k, nowMs, t)
    decreases n - k
  {
    if k == n {
      FreshEnd(s, d, plan, nid, cid, n, nowMs);
      assert FreshDone(s, d, plan, nid, cid, n, k, nowMs, s);
    } else if k + 1 == n {
      var t := FreshLast(s, d, plan, nid, cid, n, k, nowMs);
    } else {
      var s3, next := FreshStepLinked(s, d, plan, nid, cid, n, k, nowMs);
      FreshCards(s3, d, plan, nid, next, n, k + 1, nowMs);
      var t :| FreshDone(s3, d, plan, nid, next, n, k + 1, nowMs, t);
      assert FreshDone(s, d, plan, nid, cid, n, k, nowMs, t);
    }
  }

  /** One step that is not the last, and whatever the rest of the loop achieves from its state holds from `s`. */
  lemma FreshStepLinked(s: State, d: Defaults, plan: CardPlan, nid: int, cid: int, n: nat, k: nat, nowMs: nat)
    returns (s3: State, next: int)
    requires k + 1 < n && FreshReady(s, d, plan, cid, n, k, nowMs)
    ensures FreshReady(s3, d, plan, next, n, k + 1, nowMs)
    ensures forall t :: FreshDone(s3, d, plan, nid, next, n, k + 1, nowMs, t) ==> FreshDone(s, d, plan, nid, cid, n, k, nowMs, t)
  {
    s3, next := FreshStep(s, d, plan, nid, cid, n, k, nowMs);
    forall t | FreshDone(s3, d, plan, nid, next, n, k + 1, nowMs, t)
      ensures FreshDone(s, d, plan, nid, cid, n, k, nowMs, t)
    {
      FreshLink(s, s3, t, d, plan, nid, cid, next, n, k, nowMs);
    }
  }

  /**
   * The intended loop from template `k` on succeeds and leaves `t`, which
   * keeps the card ids distinct when they were, keeps the stored deck entries
   * and puts each new card in a deck named for its template.
   */
  ghost predicate FreshDone(s: State, d: Defaults, plan: CardPlan, nid: int, cid: int, n: nat, k: nat, nowMs: nat, t: State)
  {
    && RunsFresh(s, d, plan, nid, cid, n, k, nowMs, t)
    && (DistinctCardIds(s.cards) ==> DistinctCardIds(t.cards))
    && DecksKept(s, t) && DecksNamedFrom(t, plan, |s.cards|, k)
  }

  /** With no template left, the intended loop stores nothing. */
  lemma FreshEnd(s: State, d: Defaults, plan: CardPlan, nid: int, cid: int, n: nat, nowMs: nat)
    ensures FreshDone(s, d, plan, nid, cid, n, n, nowMs, s)
  {
    if s.col.Some? {
      assert s.col.value.decks[..|s.col.value.decks|] == s.col.value.decks;
    }
  }

  /** The card of the last template completes the intended loop. */
  lemma FreshLast(s: State, d: Defaults, plan: CardPlan, nid: int, cid: int, n: nat, k: nat, nowMs: nat)
    returns (t: State)
    requires k + 1 == n && FreshReady(s, d, plan, cid, n, k, nowMs)
    ensures FreshDone(s, d, plan, nid, cid, n, k, nowMs, t)
  {
    t := FreshPlace(s, d, plan, nid, cid, n, k, nowMs);
    DecksNamedCons(t, plan, |s.cards|, k);
  }

  /** The card of template `k` in front of the rest of the intended loop. */
  lemma FreshLink(s: State, s3: State, t: State, d: Defaults, plan: CardPlan, nid: int, cid: int, next: int, n: nat, k: nat, nowMs: nat)
    requires k + 1 < n
    requires PlaceCardsFresh(s, d, plan, nid, cid, n, k, nowMs) == PlaceCardsFresh(s3, d, plan, nid, next, n, k + 1, nowMs)
    requires Stepped(s, s3, plan, nid, k, nowMs) && (DistinctCardIds(s.cards) ==> DistinctCardIds(s3.cards))
    requires FreshDone(s3, d, plan, nid, next, n, k + 1, nowMs, t)
    ensures FreshDone(s, d, plan, nid, cid, n, k, nowMs, t)
  {
    FreshGlue(s, s3, t, plan, nid, k, nowMs);
  }

  /** A card in a deck named for template `k`, in front of cards named from `k + 1` on. */
  lemma DecksNamedCons(t: State, plan: CardPlan, from: nat, k: nat)
    requires from < |t.cards| && Target(plan, k).Ok? && DeckWithId(t, Target(plan, k).value, t.cards[from].did)
    requires DecksNamedFrom(t, plan, from + 1, k + 1)
    ensures DecksNamedFrom(t, plan, from, k)
  {
    forall j | from <= j < |t.cards|
      ensures NamedAt(t, plan, from, k, j)
    {
      if j > from {
        assert NamedAt(t, plan, from + 1, k + 1, j);
        assert k + j - from == k + 1 + j - (from + 1);
      }
    }
  }

  /** One row of `DecksNamedFrom`. */
  lemma DecksNamedAt(t: State, plan: CardPlan, from: nat, k: nat, i: int)
    requires DecksNamedFrom(t, plan, from, k) && from <= i < |t.cards|
    ensures Target(plan, k + i - from).Ok? && DeckWithId(t, Target(plan, k + i - from).value, t.cards[i].did)
  {
    assert NamedAt(t, plan, from, k, i);
  }

  /** Rows `from` on of `t` are the cards of templates `k` on, each in a deck named for its template. */
  predicate DecksNamedFrom(t: State, plan: CardPlan, from: nat, k: nat)
  {
    forall i :: from <= i < |t.cards| ==> NamedAt(t, plan, from, k, i)
  }

  /** Row `i` of `t` is the card of template `k + i - from`, in a deck named for that template. */
  predicate NamedAt(t: State, plan: CardPlan, from: nat, k: nat, i: int)
  {
    from <= i < |t.cards| && Target(plan, k + i - from).Ok? && DeckWithId(t, Target(plan, k + i - from).value, t.cards[i].did)
  }

  /** Card `i` of `t` belongs to note `nid`, has ordinal `j`, the time `nowMs` and a deck named `name`. */
  predicate CardPlaced(t: State, i: int, nid: int, j: nat, nowMs: nat, name: DeckName)
  {
    && 0 <= i < |t.cards| && t.cards[i].nid == nid && t.cards[i].ord == j
    && t.cards[i].mod == nowMs / 1000 && DeckWithId(t, name, t.cards[i].did)
  }

  /**
   * One iteration of the intended loop: the card of template `k` is stored
   * with the note id, ordinal `k` and the id of a deck named for it, and a
   * fresh card id is taken for the next template.
   * The invariant and the side conditions of the loop carry over.
   */
  lemma FreshStep(s: State, d: Defaults, plan: CardPlan, nid: int, cid: int, n: nat, k: nat, nowMs: nat)
    returns (s3: State, next: int)
    requires k + 1 < n && FreshReady(s, d, plan, cid, n, k, nowMs)
    ensures PlaceCardsFresh(s, d, plan, nid, cid, n, k, nowMs) == PlaceCardsFresh(s3, d, plan, nid, next, n, k + 1, nowMs)
    ensures FreshReady(s3, d, plan, next, n, k + 1, nowMs)
    ensures DistinctCardIds(s.cards) ==> DistinctCardIds(s3.cards)
    ensures Stepped(s, s3, plan, nid, k, nowMs)
  {
    var s2 := FreshPlace(s, d, plan, nid, cid, n, k, nowMs);
    var a := AllocId(s2, Cid, nowMs);
    s3, next := a.1, a.0;
    AllocConsistent(s2, d, Cid, nowMs);
    assert !HasCardId(s3.cards, next);
    assert s3.cards == s2.cards && s3.col == s2.col;
  }

  /**
   * The deck lookup and the insert of one iteration of the intended loop:
   * the card of template `k` is appended with the id `cid`, in a deck named
   * for it, and the invariant carries over.
   */
  lemma FreshPlace(s: State, d: Defaults, plan: CardPlan, nid: int, cid: int, n: nat, k: nat, nowMs: nat)
    returns (s2: State)
    requires k < n && FreshReady(s, d, plan, cid, n, k, nowMs)
    ensures var (h, s1) := DeckSpec(s, d, Target(plan, k).value, Either, nowMs);
            h.Ok? && InsertCard(s1, Card(cid, nid, h.value.id, k, nowMs / 1000)) == Ok(s2)
    ensures Consistent(s2, d) && NoLoadedClockKeys(s2, nowMs)
    ensures DistinctCardIds(s.cards) ==> DistinctCardIds(s2.cards)
    ensures Stepped(s, s2, plan, nid, k, nowMs)
  {
    assert Target(plan, k).Ok?;
    var name := Target(plan, k).value;
    var (h, s1) := DeckSpec(s, d, name, Either, nowMs);
    DeckConsistent(s, d, name, Either, nowMs);
    DeckHandleNamed(s, d, name, Either, nowMs);
    DeckAddsOnlyIds(s, d, name, Either, nowMs);
    if s.col.Some? {
      DeckKeepsEntries(s, d, name, Either, nowMs);
    }
    var c := Card(cid, nid, h.value.id, k, nowMs / 1000);
    s2 := s1.(cards := s1.cards + [c]);
    assert InsertCard(s1, c) == Ok(s2);
    CardKeepsConsistent(s1, d, c);
    assert s2.cards[..|s.cards|] == s.cards;
  }

  /**
   * What the intended loop needs from template `k` on: the invariant, no
   * loaded deck key at or above the clock, an unused card id for template `k`
   * and a deck name for every remaining template.
   */
  ghost predicate FreshReady(s: State, d: Defaults, plan: CardPlan, cid: int, n: nat, k: nat, nowMs: nat)
  {
    && k <= n && d.WellFormed() && Consistent(s, d) && NoLoadedClockKeys(s, nowMs)
    && (k < n ==> Num(cid) in s.ids.cid && !HasCardId(s.cards, cid))
    && forall j :: k <= j < n ==> Target(plan, j).Ok?
  }

  /** `s3` is `s` with the card of template `k` appended, in a deck named for it, and the decks kept. */
  predicate Stepped(s: State, s3: State, plan: CardPlan, nid: int, k: nat, nowMs: nat)
  {
    && |s3.cards| == |s.cards| + 1 && s3.cards[..|s.cards|] == s.cards
    && Target(plan, k).Ok? && CardPlaced(s3, |s.cards|, nid, k, nowMs, Target(plan, k).value)
    && s3.col.Some? && DecksKept(s, s3)
  }

  /** The intended loop from template `k` on succeeds and leaves `t`. */
  ghost predicate RunsFresh(s: State, d: Defaults, plan: CardPlan, nid: int, cid: int, n: nat, k: nat, nowMs: nat, t: State)
  {
    k <= n && PlaceCardsFresh(s, d, plan, nid, cid, n, k, nowMs) == (Ok(()), t)
  }

  /** The stored deck entries stay in place, in order. */
  predicate DecksKept(s: State, t: State)
  {
    s.col.Some? ==> t.col.Some? && |s.col.value.decks| <= |t.col.value.decks|
                    && t.col.value.decks[..|s.col.value.decks|] == s.col.value.decks
  }

  /** Gluing the card of template `k` to the cards the rest of the intended loop places. */
  lemma FreshGlue(s: State, s3: State, t: State, plan: CardPlan, nid: int, k: nat, nowMs: nat)
    requires Stepped(s, s3, plan, nid, k, nowMs)
    requires |s3.cards| <= |t.cards| && t.cards[..|s3.cards|] == s3.cards && DecksKept(s3, t)
    requires DecksNamedFrom(t, plan, |s3.cards|, k + 1)
    ensures DecksKept(s, t) && DecksNamedFrom(t, plan, |s.cards|, k)
  {
    assert t.cards[|s.cards|] == t.cards[..|s3.cards|][|s.cards|];
    var id := s3.cards[|s.cards|].did;
    var i :| 0 <= i < |s3.col.value.decks| && s3.col.value.decks[i].1.id == id && s3.col.value.decks[i].1.name == Target(plan, k).value;
    assert t.col.value.decks[i] == t.col.value.decks[..|s3.col.value.decks|][i];
    assert DeckWithId(t, Target(plan, k).value, t.cards[|s.cards|].did);
    DecksNamedCons(t, plan, |s.cards|, k);
    if s.col.Some? {
      assert t.col.value.decks[..|s.col.value.decks|] == t.col.value.decks[..|s3.col.value.decks|][..|s.col.value.decks|];
      assert DecksKept(s, t);
    }
  }

  /**
   * `add_item` with the intended card loop, under the invariant, with a known
   * model of n templates and a deck name for each: it succeeds, stores one
   * note and exactly n cards, card j with the note's id, ordinal j and the id
   * of a deck named for template j, all with distinct ids when the stored ones were.
   */
  lemma AddItemIntendedCards(s: State, d: Defaults, ext: Externals, args: seq<string>, modelName: string, tags: string,
                             plan: CardPlan, nowMs: nat, draws: seq<string>)
    requires exists j :: 0 <= j < |draws| && Str(draws[j]) !in s.ids.guid
    requires d.WellFormed() && Consistent(s, d) && NoLoadedClockKeys(s, nowMs)
    requires |args| > 0 && ModelNamed(s, modelName).Ok?
    requires forall j :: 0 <= j < |ModelNamed(s, modelName).value.tmpls| ==> Target(plan, j).Ok?
    ensures OneCardPerTemplate(s, AddItemIntended(s, d, ext, args, modelName, tags, plan, nowMs, draws),
                               |ModelNamed(s, modelName).value.tmpls|, plan, nowMs)
  {
    var (stored, s4) := StoreNote(s, ext, args, modelName, tags, nowMs, draws);
    StoreNoteConsistent(s, d, ext, args, modelName, tags, nowMs, draws);
    var (nid, cid, n) := stored.value;
    assert !HasCardId(s4.cards, cid);
    FreshCards(s4, d, plan, nid, cid, n, 0, nowMs);
    var t :| FreshDone(s4, d, plan, nid, cid, n, 0, nowMs, t);
    FreshAllPlaced(s, plan, nid, n, nowMs, t);
  }

  /**
   * `r` succeeded with one new note and exactly `n` new cards after the
   * stored ones: card j has the note's id, ordinal j, the time and the id of
   * a deck named for template j, and the card ids stay distinct when they were.
   */
  ghost predicate OneCardPerTemplate(s: State, r: (Result<(), Error>, State), n: nat, plan: CardPlan, nowMs: nat)
  {
    && r.0 == Ok(())
    && |r.1.notes| == |s.notes| + 1
    && |r.1.cards| == |s.cards| + n && r.1.cards[..|s.cards|] == s.cards
    && (DistinctCardIds(s.cards) ==> DistinctCardIds(r.1.cards))
    && forall j :: 0 <= j < n ==>
         Target(plan, j).Ok? && CardPlaced(r.1, |s.cards| + j, r.1.notes[|s.notes|].id, j, nowMs, Target(plan, j).value)
  }

  /** Reading the rows the intended loop appended as the cards of templates 0 to n - 1. */
  lemma FreshAllPlaced(s: State, plan: CardPlan, nid: int, n: nat, nowMs: nat, t: State)
    requires |t.notes| == |s.notes| + 1 && t.notes[|s.notes|].id == nid
    requires |t.cards| == |s.cards| + n && t.cards[..|s.cards|] == s.cards
    requires forall i :: |s.cards| <= i < |t.cards| ==>
               t.cards[i].nid == nid && t.cards[i].ord == i - |s.cards| && t.cards[i].mod == nowMs / 1000
    requires DecksNamedFrom(t, plan, |s.cards|, 0)
    requires DistinctCardIds(s.cards) ==> DistinctCardIds(t.cards)
    ensures OneCardPerTemplate(s, (Ok(()), t), n, plan, nowMs)
  {
    forall j | 0 <= j < n
      ensures Target(plan, j).Ok? && CardPlaced(t, |s.cards| + j, nid, j, nowMs, Target(plan, j).value)
    {
      DecksNamedAt(t, plan, |s.cards|, 0, |s.cards| + j);
    }
  }
}
