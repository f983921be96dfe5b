/** Python dicts with string keys, as the generator uses them: a key keeps the
    place of its first insertion, and assigning to a key replaces its value. */
module OrderedMaps {

  /** The keys in insertion order, and the value of each. */
  datatype OrderedMap<V> = OrderedMap(keys: seq<string>, values: map<string, V>) {

    /** Every key once, and exactly the keys of the map. */
    ghost predicate Valid() {
      && (forall i, j :: 0 <= i < j < |keys| ==> keys[i] != keys[j])
      && (forall k :: k in values <==> k in keys)
    }

    /** d[k] = v */
    function Insert(k: string, v: V): OrderedMap<V> {
      if k in values then OrderedMap(keys, values[k := v]) else OrderedMap(keys + [k], values[k := v])
    }
  }

  function Empty<V>(): (m: OrderedMap<V>)
    ensures m.Valid() && m.keys == [] && m.values == map[]
  {
    OrderedMap([], map[])
  }

  /** After d[k] = v the dict maps k to exactly v and every other key as before;
      an existing key keeps its position and a new key is appended last. */
  lemma InsertProperties<V>(m: OrderedMap<V>, k: string, v: V)
    requires m.Valid()
    ensures var r := m.Insert(k, v);
      && r.Valid()
      && k in r.values && r.values[k] == v
      && (forall k' :: k' != k ==> (k' in r.values <==> k' in m.values))
      && (forall k' :: k' != k && k' in m.values ==> r.values[k'] == m.values[k'])
      && |r.keys| == |m.keys| + (if k in m.values then 0 else 1)
      && (forall i :: 0 <= i < |m.keys| ==> r.keys[i] == m.keys[i])
      && (k !in m.values ==> r.keys[|m.keys|] == k)
  {
  }

  /** The (key, value) pairs in key order, as `for k in d: d[k]` visits them. */
  function Entries<V>(m: OrderedMap<V>): (es: seq<(string, V)>)
    requires m.Valid()
    ensures |es| == |m.keys|
    ensures forall i :: 0 <= i < |es| ==> es[i].0 == m.keys[i] && es[i].1 == m.values[m.keys[i]]
  {
    seq(|m.keys|, i requires 0 <= i < |m.keys| => (m.keys[i], m.values[m.keys[i]]))
  }

  /** The names of a sequence of writes. */
  function KeysOf<V>(ws: seq<(string, V)>): (ks: seq<string>)
    ensures |ks| == |ws| && forall i :: 0 <= i < |ws| ==> ks[i] == ws[i].0
  {
    seq(|ws|, i requires 0 <= i < |ws| => ws[i].0)
  }

  /** The dict after the writes ws, in order. */
  function InsertAll<V>(m: OrderedMap<V>, ws: seq<(string, V)>): OrderedMap<V>
    decreases |ws|
  {
    if ws == [] then m
    else InsertAll(m, ws[..|ws| - 1]).Insert(ws[|ws| - 1].0, ws[|ws| - 1].1)
  }

  /** Writing ws and then w is the last step of writing ws + [w]. */
  lemma InsertAllSnoc<V>(m: OrderedMap<V>, ws: seq<(string, V)>, w: (string, V))
    ensures InsertAll(m, ws + [w]) == InsertAll(m, ws).Insert(w.0, w.1)
  {
    assert (ws + [w])[..|ws|] == ws;
  }

  /** Writing a + b is writing a, then b. */
  lemma {:induction false} InsertAllAppend<V>(m: OrderedMap<V>, a: seq<(string, V)>, b: seq<(string, V)>)
    ensures InsertAll(m, a + b) == InsertAll(InsertAll(m, a), b)
    decreases |b|
  {
    if b == [] {
      assert a + b == a;
    } else {
      var b' := b[..|b| - 1];
      assert (a + b)[..|a + b| - 1] == a + b';
      assert (a + b)[|a + b| - 1] == b[|b| - 1];
      InsertAllAppend(m, a, b');
    }
  }

  lemma {:induction false} InsertAllValid<V>(m: OrderedMap<V>, ws: seq<(string, V)>)
    requires m.Valid()
    ensures InsertAll(m, ws).Valid()
    decreases |ws|
  {
    if ws != [] {
      InsertAllValid(m, ws[..|ws| - 1]);
      InsertProperties(InsertAll(m, ws[..|ws| - 1]), ws[|ws| - 1].0, ws[|ws| - 1].1);
    }
  }

  /** A name maps to the value of its last write. */
  lemma {:induction false} InsertAllLastWrite<V>(m: OrderedMap<V>, ws: seq<(string, V)>, i: nat)
    requires i < |ws|
    requires forall j :: i < j < |ws| ==> ws[j].0 != ws[i].0
    ensures ws[i].0 in InsertAll(m, ws).values && InsertAll(m, ws).values[ws[i].0] == ws[i].1
    decreases |ws|
  {
    if i < |ws| - 1 {
      InsertAllLastWrite(m, ws[..|ws| - 1], i);
    }
  }

  /** A name that is never written keeps its presence and value. */
  lemma {:induction false} InsertAllUntouched<V>(m: OrderedMap<V>, ws: seq<(string, V)>, k: string)
    requires k !in KeysOf(ws)
    ensures k in InsertAll(m, ws).values <==> k in m.values
    ensures k in m.values ==> InsertAll(m, ws).values[k] == m.values[k]
    decreases |ws|
  {
    if ws != [] {
      assert KeysOf(ws[..|ws| - 1]) == KeysOf(ws)[..|ws| - 1];
      assert ws[|ws| - 1].0 == KeysOf(ws)[|ws| - 1];
      InsertAllUntouched(m, ws[..|ws| - 1], k);
    }
  }

  /** The names in insertion order: seen, then each new name at its first write. */
  function FirstOccurrences(seen: seq<string>, ks: seq<string>): seq<string>
    decreases |ks|
  {
    if ks == [] then seen
    else
      var before := FirstOccurrences(seen, ks[..|ks| - 1]);
      if ks[|ks| - 1] in before then before else before + [ks[|ks| - 1]]
  }

  /** The key order of a dict depends only on the order of the names written to it. */
  lemma {:induction false} InsertAllKeys<V>(m: OrderedMap<V>, ws: seq<(string, V)>)
    requires m.Valid()
    ensures InsertAll(m, ws).keys == FirstOccurrences(m.keys, KeysOf(ws))
    decreases |ws|
  {
    if ws != [] {
      var ws' := ws[..|ws| - 1];
      InsertAllKeys(m, ws');
      InsertAllValid(m, ws');
      assert KeysOf(ws)[..|ws| - 1] == KeysOf(ws');
    }
  }

  lemma {:induction false} FirstOccurrencesAppend(seen: seq<string>, a: seq<string>, b: seq<string>)
    ensures FirstOccurrences(seen, a + b) == FirstOccurrences(FirstOccurrences(seen, a), b)
    decreases |b|
  {
    if b == [] {
      assert a + b == a;
    } else {
      assert (a + b)[..|a + b| - 1] == a + b[..|b| - 1];
      assert (a + b)[|a + b| - 1] == b[|b| - 1];
      FirstOccurrencesAppend(seen, a, b[..|b| - 1]);
    }
  }

  /** Distinct names that were not seen before are appended in their own order. */
  lemma {:induction false} FirstOccurrencesFresh(seen: seq<string>, ks: seq<string>)
    requires forall i, j :: 0 <= i < j < |ks| ==> ks[i] != ks[j]
    requires forall i :: 0 <= i < |ks| ==> ks[i] !in seen
    ensures FirstOccurrences(seen, ks) == seen + ks
    decreases |ks|
  {
    if ks != [] {
      var ks' := ks[..|ks| - 1];
      FirstOccurrencesFresh(seen, ks');
      assert ks[|ks| - 1] !in seen + ks';
      assert seen + ks' + [ks[|ks| - 1]] == seen + ks;
    }
  }
}
