/**
 * A JSON object of the `col` row (`decks`, `models`) after decoding: an
 * ordered list of (key, entry) pairs. Python dicts keep insertion order,
 * which the lookups of the builder depend on (first match for models, last
 * match for decks).
 */
module Blobs {
  import opened Wrappers

  type Blob<V> = seq<(string, V)>

  function Keys<V>(b: Blob<V>): set<string>
  {
    set i | 0 <= i < |b| :: b[i].0
  }

  lemma KeysCons<V>(p: (string, V), b: Blob<V>)
    ensures Keys([p] + b) == {p.0} + Keys(b)
  {
    var c := [p] + b;
    forall k | k in Keys(c) ensures k in {p.0} + Keys(b) {
      var i :| 0 <= i < |c| && c[i].0 == k;
      if i > 0 { assert b[i - 1].0 == k; }
    }
    forall k | k in Keys(b) ensures k in Keys(c) {
      var i :| 0 <= i < |b| && b[i].0 == k;
      assert c[i + 1].0 == k;
    }
    assert c[0].0 == p.0;
  }

  /** JSON object keys are unique. */
  predicate UniqueKeys<V>(b: Blob<V>)
  {
    forall i, j :: 0 <= i < j < |b| ==> b[i].0 != b[j].0
  }

  /** `b.get(k)`. */
  function Get<V>(b: Blob<V>, k: string): (r: Option<V>)
    ensures r.Some? <==> k in Keys(b)
    ensures r.Some? ==> exists i :: 0 <= i < |b| && b[i] == (k, r.value)
  {
    if |b| == 0 then None
    else if b[0].0 == k then Some(b[0].1)
    else
      var r := Get(b[1..], k);
      KeysCons(b[0], b[1..]);
      assert b == [b[0]] + b[1..];
      assert r.Some? ==> exists i :: 0 <= i < |b[1..]| && b[1..][i] == (k, r.value);
      r
  }

  /**
   * `b[k] = v`: an existing key keeps its position and gets the new entry,
   * a new key is appended at the end.
   */
  function Put<V>(b: Blob<V>, k: string, v: V): (r: Blob<V>)
    ensures Keys(r) == Keys(b) + {k}
    ensures |r| == if k in Keys(b) then |b| else |b| + 1
  {
    if |b| == 0 then
      KeysCons((k, v), b);
      assert [(k, v)] + b == [(k, v)];
      [(k, v)]
    else
      KeysCons(b[0], b[1..]);
      assert b == [b[0]] + b[1..];
      if b[0].0 == k then
        KeysCons((k, v), b[1..]);
        [(k, v)] + b[1..]
      else
        var rest := Put(b[1..], k, v);
        KeysCons(b[0], rest);
        [b[0]] + rest
  }

  /** After `b[k] = v`, `k` maps to `v` and every other key keeps its entry. */
  lemma {:induction false} PutGet<V>(b: Blob<V>, k: string, v: V, k': string)
    ensures Get(Put(b, k, v), k') == if k' == k then Some(v) else Get(b, k')
  {
    if |b| > 0 && b[0].0 != k {
      PutGet(b[1..], k, v, k');
    }
  }

  /** Assigning a new key appends it; the existing entries keep their order. */
  lemma {:induction false} PutNewKey<V>(b: Blob<V>, k: string, v: V)
    requires k !in Keys(b)
    ensures Put(b, k, v) == b + [(k, v)]
  {
    if |b| > 0 {
      KeysCons(b[0], b[1..]);
      assert b == [b[0]] + b[1..];
      PutNewKey(b[1..], k, v);
    }
  }

  /** Assignment keeps the keys of an object unique. */
  lemma {:induction false} PutUnique<V>(b: Blob<V>, k: string, v: V)
    requires UniqueKeys(b)
    ensures UniqueKeys(Put(b, k, v))
  {
    if |b| > 0 {
      KeysCons(b[0], b[1..]);
      assert b == [b[0]] + b[1..];
      if b[0].0 != k {
        PutUnique(b[1..], k, v);
        var r := Put(b, k, v);
        assert forall j :: 0 < j < |r| ==> r[j].0 in Keys(Put(b[1..], k, v));
        assert b[0].0 !in Keys(b[1..]);
      } else {
        var r := Put(b, k, v);
        assert forall j :: 0 < j < |r| ==> r[j] == b[j];
      }
    }
  }
}
