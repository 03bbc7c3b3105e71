/** A Python `dict` with `str` keys, as its list of entries in insertion order:
    iterating the dict visits the entries in this order. */
module PyDict {
  import opened PyValues

  type Dict<V> = seq<(string, V)>

  predicate Distinct<T(==)>(s: seq<T>) {
    forall i, j :: 0 <= i < j < |s| ==> s[i] != s[j]
  }

  /** `list(d.keys())`. */
  function Keys<V>(d: Dict<V>): (ks: seq<string>)
    ensures |ks| == |d|
    ensures forall i :: 0 <= i < |d| ==> ks[i] == d[i].0
  {
    seq(|d|, i requires 0 <= i < |d| => d[i].0)
  }

  /** `d.get(k)`, with `None` for a missing key (values themselves are never absent). */
  function Get<V>(d: Dict<V>, k: string): (r: Option<V>)
    ensures r.Some? <==> k in Keys(d)
  {
    if d == [] then None
    else if d[0].0 == k then Some(d[0].1)
    else
      KeysCons(d[0], d[1..]);
      Get(d[1..], k)
  }

  lemma KeysCons<V>(x: (string, V), t: Dict<V>)
    ensures Keys([x] + t) == [x.0] + Keys(t)
  {
  }

  lemma KeysAppend<V>(a: Dict<V>, b: Dict<V>)
    ensures Keys(a + b) == Keys(a) + Keys(b)
  {
  }

  /** Looking up in a dict with one more entry in front. */
  lemma GetCons<V>(x: (string, V), t: Dict<V>, k: string)
    ensures Get([x] + t, k) == if x.0 == k then Some(x.1) else Get(t, k)
  {
    assert ([x] + t)[0] == x && ([x] + t)[1..] == t;
  }

  /** `d[k] = v`: an existing key keeps its place and takes the new value,
      a new key goes to the end. */
  function Put<V>(d: Dict<V>, k: string, v: V): (r: Dict<V>)
    ensures Get(r, k) == Some(v)
    ensures forall k' :: k' != k ==> Get(r, k') == Get(d, k')
    ensures k in Keys(d) ==> Keys(r) == Keys(d)
    ensures k !in Keys(d) ==> Keys(r) == Keys(d) + [k]
  {
    if d == [] then
      GetCons((k, v), [], k);
      KeysCons((k, v), []);
      [(k, v)]
    else if d[0].0 == k then
      PutHead(d, k, v);
      [(k, v)] + d[1..]
    else
      var t := Put(d[1..], k, v);
      PutBehindHead(d, k, v, t);
      [d[0]] + t
  }

  /** Replacing the first entry's value. */
  lemma PutHead<V>(d: Dict<V>, k: string, v: V)
    requires d != [] && d[0].0 == k
    ensures Get([(k, v)] + d[1..], k) == Some(v)
    ensures forall k' :: k' != k ==> Get([(k, v)] + d[1..], k') == Get(d, k')
    ensures Keys([(k, v)] + d[1..]) == Keys(d)
  {
    GetCons((k, v), d[1..], k);
    forall k' | k' != k ensures Get([(k, v)] + d[1..], k') == Get(d, k') {
      GetCons((k, v), d[1..], k');
      GetCons(d[0], d[1..], k');
      assert [d[0]] + d[1..] == d;
    }
    KeysCons((k, v), d[1..]);
    KeysCons(d[0], d[1..]);
    assert [d[0]] + d[1..] == d;
  }

  /** Assigning behind a first entry with another key. */
  lemma PutBehindHead<V>(d: Dict<V>, k: string, v: V, t: Dict<V>)
    requires d != [] && d[0].0 != k
    requires Get(t, k) == Some(v)
    requires forall k' :: k' != k ==> Get(t, k') == Get(d[1..], k')
    requires k in Keys(d[1..]) ==> Keys(t) == Keys(d[1..])
    requires k !in Keys(d[1..]) ==> Keys(t) == Keys(d[1..]) + [k]
    ensures Get([d[0]] + t, k) == Some(v)
    ensures forall k' :: k' != k ==> Get([d[0]] + t, k') == Get(d, k')
    ensures k in Keys(d) ==> Keys([d[0]] + t) == Keys(d)
    ensures k !in Keys(d) ==> Keys([d[0]] + t) == Keys(d) + [k]
  {
    GetBehindHead(d, k, v, t);
    KeysBehindHead(d, k, t);
  }

  lemma GetBehindHead<V>(d: Dict<V>, k: string, v: V, t: Dict<V>)
    requires d != [] && d[0].0 != k
    requires Get(t, k) == Some(v)
    requires forall k' :: k' != k ==> Get(t, k') == Get(d[1..], k')
    ensures Get([d[0]] + t, k) == Some(v)
    ensures forall k' :: k' != k ==> Get([d[0]] + t, k') == Get(d, k')
  {
    assert [d[0]] + d[1..] == d;
    GetCons(d[0], t, k);
    forall k' | k' != k ensures Get([d[0]] + t, k') == Get(d, k') {
      GetCons(d[0], t, k');
      GetCons(d[0], d[1..], k');
    }
  }

  lemma KeysBehindHead<V>(d: Dict<V>, k: string, t: Dict<V>)
    requires d != [] && d[0].0 != k
    requires k in Keys(d[1..]) ==> Keys(t) == Keys(d[1..])
    requires k !in Keys(d[1..]) ==> Keys(t) == Keys(d[1..]) + [k]
    ensures k in Keys(d) ==> Keys([d[0]] + t) == Keys(d)
    ensures k !in Keys(d) ==> Keys([d[0]] + t) == Keys(d) + [k]
  {
    assert [d[0]] + d[1..] == d;
    KeysCons(d[0], t);
    KeysCons(d[0], d[1..]);
    assert k in Keys(d) <==> k in Keys(d[1..]);
  }

  /** The assignments `d[k] = v` for each `(k, v)` of `ps`, in order. */
  function PutAll<V>(d: Dict<V>, ps: seq<(string, V)>): Dict<V> {
    if ps == [] then d else Put(PutAll(d, ps[..|ps| - 1]), ps[|ps| - 1].0, ps[|ps| - 1].1)
  }

  /** The dict as a mathematical map, forgetting the order. */
  function ToMap<V>(d: Dict<V>): (m: map<string, V>)
    ensures forall k :: k in m <==> k in Keys(d)
    ensures forall k :: k in m ==> Get(d, k) == Some(m[k])
  {
    map k | k in Keys(d) :: Get(d, k).value
  }

  /** In a dict with distinct keys, looking up the key of an entry finds that entry's value. */
  lemma {:induction false} GetAt<V>(d: Dict<V>, i: nat)
    requires Distinct(Keys(d)) && i < |d|
    ensures Get(d, d[i].0) == Some(d[i].1)
  {
    if i > 0 {
      assert d[0].0 == Keys(d)[0] != Keys(d)[i] == d[i].0;
      assert Distinct(Keys(d[1..])) by {
        forall a, b | 0 <= a < b < |d| - 1 ensures Keys(d[1..])[a] != Keys(d[1..])[b] {
          assert Keys(d[1..])[a] == Keys(d)[a + 1] && Keys(d[1..])[b] == Keys(d)[b + 1];
        }
      }
      GetAt(d[1..], i - 1);
    }
  }

  /** Two dicts with the same key order and the same lookups are the same dict. */
  lemma SameKeysSameGets<V>(d1: Dict<V>, d2: Dict<V>)
    requires Keys(d1) == Keys(d2) && Distinct(Keys(d1))
    requires forall k :: Get(d1, k) == Get(d2, k)
    ensures d1 == d2
  {
    forall i | 0 <= i < |d1| ensures d1[i] == d2[i] {
      GetAt(d1, i);
      GetAt(d2, i);
    }
  }

  /** Two dicts with the same lookups are the same map, whatever their order. */
  lemma SameGetsSameMap<V>(d1: Dict<V>, d2: Dict<V>)
    requires forall k :: Get(d1, k) == Get(d2, k)
    ensures ToMap(d1) == ToMap(d2)
  {
  }

  /** After assigning pairs with distinct keys, each key holds its pair's value
      and every other key is untouched. */
  lemma {:induction false} PutAllGet<V>(d: Dict<V>, ps: seq<(string, V)>)
    requires Distinct(Keys(ps))
    ensures forall i :: 0 <= i < |ps| ==> Get(PutAll(d, ps), ps[i].0) == Some(ps[i].1)
    ensures forall k :: k !in Keys(ps) ==> Get(PutAll(d, ps), k) == Get(d, k)
  {
    if ps != [] {
      var init, last := ps[..|ps| - 1], ps[|ps| - 1];
      assert Keys(ps) == Keys(init) + [last.0];
      DistinctPrefix(Keys(ps), |init|);
      PutAllGet(d, init);
      var before := PutAll(d, init);
      assert PutAll(d, ps) == Put(before, last.0, last.1);
      forall i | 0 <= i < |ps| ensures Get(PutAll(d, ps), ps[i].0) == Some(ps[i].1) {
        if i < |init| {
          assert Keys(ps)[i] != Keys(ps)[|ps| - 1];
          assert init[i] == ps[i];
        }
      }
      forall k | k !in Keys(ps) ensures Get(PutAll(d, ps), k) == Get(d, k) {
        assert k !in Keys(init) && k != last.0;
      }
    }
  }

  lemma DistinctPrefix<T>(s: seq<T>, n: nat)
    requires Distinct(s) && n <= |s|
    ensures Distinct(s[..n])
  {
    forall a, b | 0 <= a < b < n ensures s[..n][a] != s[..n][b] {
      assert s[..n][a] == s[a] && s[..n][b] == s[b];
    }
  }

  /** Assigning a key the dict does not hold appends the entry. */
  lemma {:induction false} PutFresh<V>(d: Dict<V>, k: string, v: V)
    requires k !in Keys(d)
    ensures Put(d, k, v) == d + [(k, v)]
  {
    if d != [] {
      KeysCons(d[0], d[1..]);
      assert [d[0]] + d[1..] == d;
      assert d[0].0 != k && k !in Keys(d[1..]);
      PutFresh(d[1..], k, v);
      assert Put(d, k, v) == [d[0]] + (d[1..] + [(k, v)]);
    }
  }

  /** Assigning distinct keys that are all new appends the entries, in order. */
  lemma {:induction false} PutAllFresh<V>(d: Dict<V>, ps: seq<(string, V)>)
    requires Distinct(Keys(ps))
    requires forall i :: 0 <= i < |ps| ==> ps[i].0 !in Keys(d)
    ensures PutAll(d, ps) == d + ps
  {
    if ps != [] {
      var init, last := ps[..|ps| - 1], ps[|ps| - 1];
      assert ps == init + [last];
      assert Distinct(Keys(init)) by {
        DistinctPrefix(Keys(ps), |init|);
        assert Keys(ps)[..|init|] == Keys(init);
      }
      PutAllFresh(d, init);
      LastKeyFresh(d, init, last);
      PutFresh(d + init, last.0, last.1);
      assert d + init + [last] == d + ps;
    }
  }

  lemma LastKeyFresh<V>(d: Dict<V>, init: Dict<V>, last: (string, V))
    requires Distinct(Keys(init + [last]))
    requires last.0 !in Keys(d)
    ensures last.0 !in Keys(d + init)
  {
    KeysAppend(d, init);
    KeysAppend(init, [last]);
    forall i | 0 <= i < |init| ensures Keys(init)[i] != last.0 {
      assert Keys(init + [last])[i] == Keys(init)[i];
      assert Keys(init + [last])[|init|] == last.0;
    }
  }

  /** Assigning keys that are all present already leaves the key order as it was. */
  lemma {:induction false} PutAllPresentKeys<V>(d: Dict<V>, ps: seq<(string, V)>)
    requires forall i :: 0 <= i < |ps| ==> ps[i].0 in Keys(d)
    ensures Keys(PutAll(d, ps)) == Keys(d)
  {
    if ps != [] {
      PutAllPresentKeys(d, ps[..|ps| - 1]);
    }
  }

  /** Assigning one more pair is one more `Put` after the others. */
  lemma PutAllSnoc<V>(d: Dict<V>, ps: seq<(string, V)>, k: string, v: V)
    ensures PutAll(d, ps + [(k, v)]) == Put(PutAll(d, ps), k, v)
  {
    assert (ps + [(k, v)])[..|ps|] == ps;
  }

  /** A key that no pair assigns stays as it was. */
  lemma {:induction false} PutAllUntouched<V>(d: Dict<V>, ps: seq<(string, V)>, k: string)
    requires k !in Keys(ps)
    ensures Get(PutAll(d, ps), k) == Get(d, k)
  {
    if ps != [] {
      var init := ps[..|ps| - 1];
      assert Keys(ps) == Keys(init) + [ps[|ps| - 1].0];
      PutAllUntouched(d, init, k);
    }
  }
}
