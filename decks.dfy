/**
 * The deck manager (`deck`, `new_deck`, `get_deck`) as a function of the
 * session state: a lookup of the deck name in the decks object, controlled
 * by the tri-state `create` flag, and the creation of a missing deck.
 */
module Decks {
  import opened Wrappers
  import opened Text
  import opened Blobs
  import opened Errors
  import opened Records
  import opened Allocator

  /**
   * The index of the LAST entry of the decks object named `name`: the loop
   * over `decks.values()` keeps overwriting its match and does not stop.
   */
  function LastDeckNamed(decks: Blob<DeckEntry>, name: DeckName): (r: Option<nat>)
    ensures r.Some? ==> r.value < |decks| && decks[r.value].1.name == name
    ensures r.Some? ==> forall j :: r.value < j < |decks| ==> decks[j].1.name != name
    ensures r.None? <==> forall j :: 0 <= j < |decks| ==> decks[j].1.name != name
  {
    if |decks| == 0 then None
    else if decks[|decks| - 1].1.name == name then Some(|decks| - 1)
    else
      var r := LastDeckNamed(decks[..|decks| - 1], name);
      assert forall j :: 0 <= j < |decks| - 1 ==> decks[..|decks| - 1][j] == decks[j];
      r
  }

  /** The collection `deck` works on: the stored one, or the default row it inserts when there is none. */
  function ColOrDefault(s: State, d: Defaults): Collection
  {
    if s.col.Some? then s.col.value else Collection([], d.models)
  }

  predicate HasDeckNamed(decks: Blob<DeckEntry>, name: DeckName)
  {
    exists j :: 0 <= j < |decks| && decks[j].1.name == name
  }

  /** The entry a new deck gets: the default deck with the new id and the name. */
  function NewDeckEntry(d: Defaults, id: nat, name: DeckName): (e: DeckEntry)
    ensures e.id == id && e.name == name && e.conf == d.deck.conf
  {
    d.deck.(id := id, name := name)
  }

  /**
   * `deck(name, create)` with the clock at `nowMs`: the handle (or the
   * exception) and the state afterwards.
   */
  function DeckSpec(s: State, d: Defaults, name: DeckName, mode: CreateMode, nowMs: nat): (r: (Result<DeckHandle, Error>, State))
    // no collection row and create=False: NotFound, nothing changes
    ensures s.col.None? && mode == MustExist ==> r == (Err(NotFound), s)
    // an existing name with create=True: AlreadyExists, nothing changes
    ensures s.col.Some? && HasDeckNamed(s.col.value.decks, name) && mode == MustCreate ==> r == (Err(AlreadyExists), s)
    // an existing name otherwise: the handle of the last entry with that name, nothing changes
    ensures s.col.Some? && HasDeckNamed(s.col.value.decks, name) && mode != MustCreate ==>
      && r.1 == s && r.0.Ok?
      && exists j :: 0 <= j < |s.col.value.decks| && s.col.value.decks[j].1.name == name
           && r.0.value == DeckHandle(s.col.value.decks[j].1.id, name)
           && forall k :: j < k < |s.col.value.decks| ==> s.col.value.decks[k].1.name != name
    // a missing name (even with create=False once the row exists): one deck is created
    ensures !HasDeckNamed(ColOrDefault(s, d).decks, name) && !(s.col.None? && mode == MustExist) ==>
      && r.0.Ok? && r.0.value.name == name
      && r.0.value.id >= nowMs && Num(r.0.value.id) !in s.ids.did
      && var id: nat := r.0.value.id;
         var col := ColOrDefault(s, d);
         r.1 == State(s.ids.Add(Did, Num(id)),
                      Some(col.(decks := Put(col.decks, Decimal(id), NewDeckEntry(d, id, name)))),
                      s.notes, s.cards)
    // create=None never fails
    ensures mode == Either ==> r.0.Ok?
    // only the did namespace and the collection row can change
    ensures r.1.notes == s.notes && r.1.cards == s.cards && r.1.ids.(did := s.ids.did) == s.ids
  {
    if s.col.None? && mode == MustExist then (Err(NotFound), s)
    else
      var col := ColOrDefault(s, d);
      var s1 := s.(col := Some(col));
      match LastDeckNamed(col.decks, name)
      case Some(j) =>
        if mode == MustCreate then (Err(AlreadyExists), s1)
        else (Ok(DeckHandle(col.decks[j].1.id, col.decks[j].1.name)), s1)
      case None =>
        var (id, s2) := AllocId(s1, Did, nowMs);
        var decks := Put(col.decks, Decimal(id), NewDeckEntry(d, id, name));
        (Ok(DeckHandle(id, name)), s2.(col := Some(col.(decks := decks))))
  }

  /** A handle `deck` returns names an entry of the decks object of the state it leaves. */
  lemma DeckHandleNamed(s: State, d: Defaults, name: DeckName, mode: CreateMode, nowMs: nat)
    requires DeckSpec(s, d, name, mode, nowMs).0.Ok?
    ensures var (h, s1) := DeckSpec(s, d, name, mode, nowMs);
            && h.value.name == name && s1.col.Some?
            && exists j :: 0 <= j < |s1.col.value.decks| && s1.col.value.decks[j].1.id == h.value.id
                 && s1.col.value.decks[j].1.name == name
  {
    var (h, s1) := DeckSpec(s, d, name, mode, nowMs);
    var col := ColOrDefault(s, d);
    if !HasDeckNamed(col.decks, name) {
      var id: nat := h.value.id;
      var e := NewDeckEntry(d, id, name);
      PutGet(col.decks, Decimal(id), e, Decimal(id));
      var j :| 0 <= j < |s1.col.value.decks| && s1.col.value.decks[j] == (Decimal(id), e);
    }
  }

  /**
   * A deck `deck` creates is stored under `str(id)` and every other key keeps
   * its entry; when that key is new (always, for a key made in this session)
   * the entry is appended after the existing ones.
   */
  lemma CreatedDeckStored(s: State, d: Defaults, name: DeckName, mode: CreateMode, nowMs: nat)
    requires s.col.Some? && !HasDeckNamed(s.col.value.decks, name)
    ensures var (h, s1) := DeckSpec(s, d, name, mode, nowMs);
            var old_, new_ := s.col.value.decks, s1.col.value.decks;
            && h.Ok?
            && Get(new_, Decimal(h.value.id)) == Some(DeckEntry(h.value.id, name, d.deck.conf))
            && (forall k :: k != Decimal(h.value.id) ==> Get(new_, k) == Get(old_, k))
            && (Decimal(h.value.id) !in Keys(old_) ==> new_ == old_ + [(Decimal(h.value.id), DeckEntry(h.value.id, name, d.deck.conf))])
  {
    var (h, s1) := DeckSpec(s, d, name, mode, nowMs);
    var id: nat := h.value.id;
    var e := NewDeckEntry(d, id, name);
    forall k ensures Get(s1.col.value.decks, k) == if k == Decimal(id) then Some(e) else Get(s.col.value.decks, k) {
      PutGet(s.col.value.decks, Decimal(id), e, k);
    }
    if Decimal(id) !in Keys(s.col.value.decks) {
      PutNewKey(s.col.value.decks, Decimal(id), e);
    }
  }

  /** `deck` keeps the collection invariant. */
  lemma DeckConsistent(s: State, d: Defaults, name: DeckName, mode: CreateMode, nowMs: nat)
    requires Consistent(s, d) && d.WellFormed()
    ensures Consistent(DeckSpec(s, d, name, mode, nowMs).1, d)
  {
    var col := ColOrDefault(s, d);
    var r := DeckSpec(s, d, name, mode, nowMs);
    if !HasDeckNamed(col.decks, name) && !(s.col.None? && mode == MustExist) {
      var id: nat := r.0.value.id;
      if s.col.None? {
        assert Keys(col.decks) == {};
        assert Keys(col.models) - Keys(d.models) == {};
      }
      TrackedAfterNewKey(Keys(col.decks), s.ids.did, id);
      PutUnique(col.decks, Decimal(id), NewDeckEntry(d, id, name));
      TrackedGrows(Keys(col.models) - Keys(d.models), s.ids.mid, {});
    }
  }

  /**
   * After `new_deck(name)` succeeds, `get_deck(name)` finds the deck just
   * created: same id, same name, and nothing changes.
   */
  lemma NewThenGet(s: State, d: Defaults, name: DeckName, t1: nat, t2: nat)
    requires DeckSpec(s, d, name, MustCreate, t1).0.Ok?
    ensures var (h, s1) := DeckSpec(s, d, name, MustCreate, t1);
            DeckSpec(s1, d, name, MustExist, t2) == (h, s1)
  {
    var (h, s1) := DeckSpec(s, d, name, MustCreate, t1);
    var col := ColOrDefault(s, d);
    assert !HasDeckNamed(col.decks, name) by {
      if s.col.None? { assert col.decks == []; }
    }
    var id: nat := h.value.id;
    var e := NewDeckEntry(d, id, name);
    var decks := Put(col.decks, Decimal(id), e);
    assert s1.col.value.decks == decks;
    PutGet(col.decks, Decimal(id), e, Decimal(id));
    var i :| 0 <= i < |decks| && decks[i] == (Decimal(id), e);
    assert HasDeckNamed(decks, name);
    NamedEntriesAfterPut(col.decks, Decimal(id), e, name);
    var r := DeckSpec(s1, d, name, MustExist, t2);
    assert r.1 == s1;
    var j :| 0 <= j < |decks| && decks[j].1.name == name && r.0.value == DeckHandle(decks[j].1.id, name);
    assert decks[j] == (Decimal(id), e);
  }

  /** `new_deck` twice with the same name: the second call fails and changes nothing. */
  lemma NewTwiceFails(s: State, d: Defaults, name: DeckName, t1: nat, t2: nat)
    requires DeckSpec(s, d, name, MustCreate, t1).0.Ok?
    ensures var s1 := DeckSpec(s, d, name, MustCreate, t1).1;
            DeckSpec(s1, d, name, MustCreate, t2) == (Err(AlreadyExists), s1)
  {
    var (h, s1) := DeckSpec(s, d, name, MustCreate, t1);
    var col := ColOrDefault(s, d);
    var id: nat := h.value.id;
    var e := NewDeckEntry(d, id, name);
    PutGet(col.decks, Decimal(id), e, Decimal(id));
    var decks := Put(col.decks, Decimal(id), e);
    var j :| 0 <= j < |decks| && decks[j] == (Decimal(id), e);
    assert HasDeckNamed(s1.col.value.decks, name);
  }

  /**
   * When no entry is named `name`, assigning an entry named `name` leaves it
   * the only entry with that name.
   */
  lemma {:induction false} NamedEntriesAfterPut(decks: Blob<DeckEntry>, k: string, e: DeckEntry, name: DeckName)
    requires !HasDeckNamed(decks, name) && e.name == name
    ensures forall i :: 0 <= i < |Put(decks, k, e)| && Put(decks, k, e)[i].1.name == name ==> Put(decks, k, e)[i] == (k, e)
  {
    if |decks| > 0 && decks[0].0 != k {
      assert !HasDeckNamed(decks[1..], name) by {
        forall j | 0 <= j < |decks[1..]| ensures decks[1..][j].1.name != name {
          assert decks[1..][j] == decks[j + 1];
        }
      }
      NamedEntriesAfterPut(decks[1..], k, e, name);
    } else if |decks| > 0 {
      var r := Put(decks, k, e);
      forall i | 0 < i < |r| ensures r[i].1.name != name {
        assert r[i] == decks[i];
      }
    }
  }

  /** The state holds a deck named `name` with id `id`. */
  predicate DeckWithId(s: State, name: DeckName, id: int)
  {
    s.col.Some? && exists j :: 0 <= j < |s.col.value.decks| && s.col.value.decks[j].1.id == id && s.col.value.decks[j].1.name == name
  }

  /**
   * No key loaded into `did` is the decimal form of a time from `nowMs` on, so
   * a deck created now cannot land on a loaded key (see `LoadedKeyClash`).
   */
  ghost predicate NoLoadedClockKeys(s: State, nowMs: nat)
  {
    forall x: nat :: x >= nowMs ==> Str(Decimal(x)) !in s.ids.did
  }

  /** `deck` adds only integer ids to the `did` namespace. */
  lemma DeckAddsOnlyIds(s: State, d: Defaults, name: DeckName, mode: CreateMode, nowMs: nat)
    ensures var s1 := DeckSpec(s, d, name, mode, nowMs).1;
            s.ids.did <= s1.ids.did && forall k :: k in s1.ids.did && k !in s.ids.did ==> k.Num?
  {
  }

  /**
   * Away from loaded-key clashes, `deck` never rewrites or reorders an
   * existing deck entry: the old entries stay a prefix of the new ones.
   */
  lemma DeckKeepsEntries(s: State, d: Defaults, name: DeckName, mode: CreateMode, nowMs: nat)
    requires Consistent(s, d) && s.col.Some? && NoLoadedClockKeys(s, nowMs)
    ensures var s1 := DeckSpec(s, d, name, mode, nowMs).1;
            && s1.col.Some? && |s.col.value.decks| <= |s1.col.value.decks|
            && s1.col.value.decks[..|s.col.value.decks|] == s.col.value.decks
  {
    var r := DeckSpec(s, d, name, mode, nowMs);
    var decks := s.col.value.decks;
    if !HasDeckNamed(decks, name) {
      var id: nat := r.0.value.id;
      assert Decimal(id) !in Keys(decks) by {
        if Decimal(id) in Keys(decks) {
          assert Str(Decimal(id)) !in s.ids.did;
          var x: nat :| Num(x) in s.ids.did && Decimal(id) == Decimal(x);
          DecimalInjective(id, x);
        }
      }
      PutNewKey(decks, Decimal(id), NewDeckEntry(d, id, name));
    }
  }
}
