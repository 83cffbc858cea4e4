/**
 * The id allocator (`_new_id`, `_new_guid`) and the seeding of the id
 * namespaces from the rows of an opened collection (`init`), as functions of
 * the session state.
 */
module Allocator {
  import opened Wrappers
  import opened Text
  import opened Blobs
  import opened Records

  /** The integer ids in `used` from `v` on: what is left for the `_new_id` loop to skip. */
  ghost function UsedFrom(used: set<Key>, v: int): set<Key>
  {
    set k | k in used && k.Num? && k.n >= v
  }

  /** Where the `_new_id` loop stops: the first integer from `v` on that is not in `used`. */
  function NextFree(used: set<Key>, v: int): (r: int)
    ensures v <= r && Num(r) !in used
    ensures forall x {:trigger Num(x) in used} :: v <= x < r ==> Num(x) in used
    decreases UsedFrom(used, v)
  {
    if Num(v) in used then
      assert Num(v) in UsedFrom(used, v) && Num(v) !in UsedFrom(used, v + 1);
      NextFree(used, v + 1)
    else v
  }

  /** Where the `_new_guid` loop stops: the index of the first draw of `guid64` that is not in `used`. */
  function FirstFresh(used: set<Key>, draws: seq<string>, i: nat): (r: nat)
    requires exists j :: i <= j < |draws| && Str(draws[j]) !in used
    ensures i <= r < |draws| && Str(draws[r]) !in used
    ensures forall j :: i <= j < r ==> Str(draws[j]) in used
    decreases |draws| - i
  {
    if Str(draws[i]) !in used then i else FirstFresh(used, draws, i + 1)
  }

  /** `_new_id(ns)` with the clock reading `nowMs` (milliseconds): the id and the new state. */
  function AllocId(s: State, ns: Namespace, nowMs: nat): (r: (nat, State))
    ensures r.0 >= nowMs && Num(r.0) !in s.ids.Get(ns)
    ensures forall x {:trigger Num(x) in s.ids.Get(ns)} :: nowMs <= x < r.0 ==> Num(x) in s.ids.Get(ns)
    ensures r.1 == s.(ids := s.ids.Add(ns, Num(r.0)))
  {
    var id := NextFree(s.ids.Get(ns), nowMs);
    (id, s.(ids := s.ids.Add(ns, Num(id))))
  }

  /** `_new_guid()` where `guid64` returns `draws[0]`, `draws[1]`, … in turn. */
  function AllocGuid(s: State, draws: seq<string>): (r: (string, State))
    requires exists j :: 0 <= j < |draws| && Str(draws[j]) !in s.ids.guid
    ensures Str(r.0) !in s.ids.guid && r.0 in draws
    ensures r.1 == s.(ids := s.ids.Add(Guid, Str(r.0)))
  {
    var g := draws[FirstFresh(s.ids.guid, draws, 0)];
    (g, s.(ids := s.ids.Add(Guid, Str(g))))
  }

  /**
   * What `init` puts in `self.ids`: the JSON keys of the decks and models
   * objects (as strings), the ids and guids of the notes and the ids of the cards.
   */
  function SeedIds(col: Option<Collection>, notes: seq<Note>, cards: seq<Card>): (r: IdSets)
    ensures forall k :: k in r.did || k in r.mid ==> k.Str?
    ensures col.Some? ==> forall key :: key in Keys(col.value.decks) ==> Str(key) in r.did
    ensures col.Some? ==> forall key :: key in Keys(col.value.models) ==> Str(key) in r.mid
    ensures forall i :: 0 <= i < |notes| ==> Num(notes[i].id) in r.nid && Str(notes[i].guid) in r.guid
    ensures forall i :: 0 <= i < |cards| ==> Num(cards[i].id) in r.cid
    ensures col.None? ==> r.did == {} && r.mid == {}
    ensures forall k :: k in r.did ==> col.Some? && k.Str? && k.s in Keys(col.value.decks)
    ensures forall k :: k in r.mid ==> col.Some? && k.Str? && k.s in Keys(col.value.models)
    ensures forall k :: k in r.nid ==> exists i :: 0 <= i < |notes| && k == Num(notes[i].id)
    ensures forall k :: k in r.cid ==> exists i :: 0 <= i < |cards| && k == Num(cards[i].id)
    ensures forall k :: k in r.guid ==> exists i :: 0 <= i < |notes| && k == Str(notes[i].guid)
  {
    IdSets(did := KeySet(col, true), mid := KeySet(col, false),
           nid := NoteIds(notes), cid := CardIds(cards), guid := NoteGuids(notes))
  }

  /** The keys of the decks object (`decks`) or of the models object, as members of a namespace. */
  function KeySet(col: Option<Collection>, decks: bool): (r: set<Key>)
    ensures forall k :: k in r <==> col.Some? && k.Str? && k.s in (if decks then Keys(col.value.decks) else Keys(col.value.models))
  {
    if col.None? then {}
    else if decks then set key | key in Keys(col.value.decks) :: Str(key)
    else set key | key in Keys(col.value.models) :: Str(key)
  }

  function NoteIds(notes: seq<Note>): (r: set<Key>)
    ensures forall k :: k in r <==> exists i :: 0 <= i < |notes| && k == Num(notes[i].id)
  {
    set i | 0 <= i < |notes| :: Num(notes[i].id)
  }

  function CardIds(cards: seq<Card>): (r: set<Key>)
    ensures forall k :: k in r <==> exists i :: 0 <= i < |cards| && k == Num(cards[i].id)
  {
    set i | 0 <= i < |cards| :: Num(cards[i].id)
  }

  function NoteGuids(notes: seq<Note>): (r: set<Key>)
    ensures forall k :: k in r <==> exists i :: 0 <= i < |notes| && k == Str(notes[i].guid)
  {
    set i | 0 <= i < |notes| :: Str(notes[i].guid)
  }

  /**
   * Every key of a decks or models object is either a key the namespace was
   * seeded with or the decimal form of an id allocated in this session.
   */
  ghost predicate Tracked(keys: set<string>, used: set<Key>)
  {
    forall key :: key in keys ==> Str(key) in used || exists x: nat :: Num(x) in used && key == Decimal(x)
  }

  /**
   * The invariant of an open collection: JSON objects have unique keys, their
   * keys are tracked by the did/mid namespaces, and every note and card id and
   * every guid is in its namespace (so a new id never repeats a stored row's).
   * The keys of the default models, which `deck` copies into a collection row
   * it creates, are the one exception: `init` never saw them.
   */
  ghost predicate Consistent(s: State, d: Defaults)
  {
    && (s.col.Some? ==> UniqueKeys(s.col.value.decks) && UniqueKeys(s.col.value.models))
    && (s.col.Some? ==> Tracked(Keys(s.col.value.decks), s.ids.did))
    && (s.col.Some? ==> Tracked(Keys(s.col.value.models) - Keys(d.models), s.ids.mid))
    && (forall i :: 0 <= i < |s.notes| ==> Num(s.notes[i].id) in s.ids.nid && Str(s.notes[i].guid) in s.ids.guid)
    && (forall i :: 0 <= i < |s.cards| ==> Num(s.cards[i].id) in s.ids.cid)
  }

  /** Seeding establishes the invariant on any well-formed database. */
  lemma SeedConsistent(store: Store, d: Defaults)
    requires store.WellFormed()
    ensures Consistent(State(SeedIds(store.col, store.notes, store.cards), store.col, store.notes, store.cards), d)
  {
    var ids := SeedIds(store.col, store.notes, store.cards);
    if store.col.Some? {
      var col := store.col.value;
      forall key | key in Keys(col.decks) ensures Str(key) in ids.did {
      }
      forall key | key in Keys(col.models) - Keys(d.models) ensures Str(key) in ids.mid {
      }
      assert Tracked(Keys(col.decks), ids.did);
      assert Tracked(Keys(col.models) - Keys(d.models), ids.mid);
    }
  }

  /** Adding to a used-set keeps every key tracked. */
  lemma TrackedGrows(keys: set<string>, used: set<Key>, more: set<Key>)
    requires Tracked(keys, used)
    ensures Tracked(keys, used + more)
  {
    forall key | key in keys ensures Str(key) in used + more || exists x: nat :: Num(x) in used + more && key == Decimal(x) {
      if Str(key) !in used {
        var x: nat :| Num(x) in used && key == Decimal(x);
        assert Num(x) in used + more;
      }
    }
  }

  /** Allocation keeps the invariant: the namespaces only grow. */
  lemma AllocConsistent(s: State, d: Defaults, ns: Namespace, nowMs: nat)
    requires Consistent(s, d)
    ensures Consistent(AllocId(s, ns, nowMs).1, d)
  {
    var id := AllocId(s, ns, nowMs).0;
    if s.col.Some? {
      TrackedGrows(Keys(s.col.value.decks), s.ids.did, if ns == Did then {Num(id)} else {});
      TrackedGrows(Keys(s.col.value.models) - Keys(d.models), s.ids.mid, if ns == Mid then {Num(id)} else {});
    }
  }

  lemma GuidConsistent(s: State, d: Defaults, draws: seq<string>)
    requires Consistent(s, d)
    requires exists j :: 0 <= j < |draws| && Str(draws[j]) !in s.ids.guid
    ensures Consistent(AllocGuid(s, draws).1, d)
  {
  }

  /**
   * Under the invariant, the key `str(id)` of a freshly allocated id can only
   * clash with a key that was loaded from the database, never with one made
   * in this session.
   */
  lemma {:induction false} NewKeyClashesOnlyWithLoaded(keys: set<string>, used: set<Key>, nowMs: nat)
    requires Tracked(keys, used)
    ensures var id := NextFree(used, nowMs);
            Decimal(id) in keys ==> Str(Decimal(id)) in used
  {
    var id := NextFree(used, nowMs);
    if Decimal(id) in keys && Str(Decimal(id)) !in used {
      var x: nat :| Num(x) in used && Decimal(id) == Decimal(x);
      DecimalInjective(id, x);
      assert false;
    }
  }

  /**
   * The clash does happen: the did namespace is seeded with the string key
   * "5", the integer 5 is not in it, so at clock 5 ms the allocator returns 5,
   * whose key "5" is taken.
   */
  lemma LoadedKeyClash(used: set<Key>)
    requires used == {Str("5")}
    ensures NextFree(used, 5) == 5 && Decimal(5) == "5" && Str(Decimal(5)) in used
  {
    assert Decimal(5) == [DigitChar(5)];
  }

  /** Registering a new key that is the decimal form of an allocated id keeps the keys tracked. */
  lemma TrackedAfterNewKey(keys: set<string>, used: set<Key>, id: nat)
    requires Tracked(keys, used)
    ensures Tracked(keys + {Decimal(id)}, used + {Num(id)})
  {
    TrackedGrows(keys, used, {Num(id)});
  }

  /** Fewer keys are tracked by the same namespace. */
  lemma TrackedSubset(keys: set<string>, fewer: set<string>, used: set<Key>)
    requires Tracked(keys, used) && fewer <= keys
    ensures Tracked(fewer, used)
  {
  }
}
