/**
 * Python's insertion-ordered `dict`, as a sequence of key/value pairs.
 * Writing a key that is already present keeps its first position and replaces its value;
 * writing a new key appends it. `update` is a sequence of such writes.
 */
module OrderedDict {
  import opened Wrappers

  /** The keys of a pair sequence, in order. */
  function Keys<K(!new), V>(d: seq<(K, V)>): seq<K>
  {
    seq(|d|, i requires 0 <= i < |d| => d[i].0)
  }

  ghost predicate UniqueKeys<K(!new), V>(d: seq<(K, V)>)
  {
    forall i, j :: 0 <= i < j < |d| ==> d[i].0 != d[j].0
  }

  /** Position of the first occurrence of `k` in `ks`. */
  function IndexOf<K(==, !new)>(ks: seq<K>, k: K): (r: Option<nat>)
    ensures r.None? <==> k !in ks
    ensures r.Some? ==> r.value < |ks| && ks[r.value] == k && k !in ks[..r.value]
  {
    if ks == [] then None
    else if ks[0] == k then Some(0)
    else match IndexOf(ks[1..], k)
      case None => None
      case Some(i) =>
        assert ks[..i + 1] == [ks[0]] + ks[1..][..i];
        Some(i + 1)
  }

  /** A position holding `k` with no earlier `k` is the position IndexOf finds. */
  lemma FirstIndex<K(!new)>(ks: seq<K>, k: K, i: nat)
    requires i < |ks| && ks[i] == k && k !in ks[..i]
    ensures IndexOf(ks, k) == Some(i)
  {
  }

  /** `d[k]`, or None when `k` is absent. */
  function Get<K(==, !new), V>(d: seq<(K, V)>, k: K): Option<V>
  {
    match IndexOf(Keys(d), k)
    case None => None
    case Some(i) => Some(d[i].1)
  }

  /** In a dict with unique keys, the value at position i is the value of its key. */
  lemma GetAt<K(!new), V>(d: seq<(K, V)>, i: nat)
    requires UniqueKeys(d) && i < |d|
    ensures Get(d, d[i].0) == Some(d[i].1)
  {
    var ks := Keys(d);
    forall j | 0 <= j < i ensures ks[..i][j] != d[i].0 {
      assert ks[..i][j] == d[j].0;
    }
    FirstIndex(ks, d[i].0, i);
  }

  /** `d[k] = v`: a present key keeps its position and takes the new value; a new key goes last. */
  function Put<K(==, !new), V>(d: seq<(K, V)>, k: K, v: V): (r: seq<(K, V)>)
    ensures Keys(r) == if k in Keys(d) then Keys(d) else Keys(d) + [k]
  {
    match IndexOf(Keys(d), k)
    case Some(i) =>
      var r := d[i := (k, v)];
      assert Keys(r) == Keys(d);
      r
    case None =>
      var r := d + [(k, v)];
      assert Keys(r) == Keys(d) + [k];
      r
  }

  /**
   * After `d[k] = v`, `k` maps to `v`, every other key keeps its value, no other pair appears,
   * and unique keys stay unique.
   */
  lemma PutFacts<K(!new), V>(d: seq<(K, V)>, k: K, v: V)
    ensures Get(Put(d, k, v), k) == Some(v)
    ensures forall k' :: k' != k ==> Get(Put(d, k, v), k') == Get(d, k')
    ensures forall p :: p in Put(d, k, v) ==> p == (k, v) || p in d
    ensures UniqueKeys(d) ==> UniqueKeys(Put(d, k, v))
  {
    var r := Put(d, k, v);
    match IndexOf(Keys(d), k)
    case Some(i) =>
      assert r == d[i := (k, v)];
      assert Keys(r) == Keys(d);
    case None =>
      assert r == d + [(k, v)];
      assert forall j :: 0 <= j < |d| ==> r[j].0 == Keys(d)[j] != k;
      assert Keys(r)[..|d|] == Keys(d);
      FirstIndex(Keys(r), k, |d|);
      forall k' | k' != k && k' in Keys(d) ensures Get(r, k') == Get(d, k') {
        var j := IndexOf(Keys(d), k').value;
        assert Keys(r)[..j] == Keys(d)[..j];
        FirstIndex(Keys(r), k', j);
      }
  }

  /** `d.update(ps)`: the writes of `ps`, one after another. */
  function Update<K(==, !new), V>(d: seq<(K, V)>, ps: seq<(K, V)>): seq<(K, V)>
  {
    if ps == [] then d
    else
      var last := ps[|ps| - 1];
      Put(Update(d, ps[..|ps| - 1]), last.0, last.1)
  }

  /** `dict(ps)`: the dict built from a sequence of pairs. */
  function FromPairs<K(==, !new), V>(ps: seq<(K, V)>): seq<(K, V)>
  {
    Update([], ps)
  }

  /** The keys that result from writing `ns` after `ks`: each key not seen before is appended, at its first occurrence. */
  function AddKeys<K(==, !new)>(ks: seq<K>, ns: seq<K>): seq<K>
  {
    if ns == [] then ks
    else
      var a := AddKeys(ks, ns[..|ns| - 1]);
      if ns[|ns| - 1] in a then a else a + [ns[|ns| - 1]]
  }

  /** The position of the last pair for `k`. */
  function LastIndex<K(==, !new), V>(ps: seq<(K, V)>, k: K): (i: nat)
    requires k in Keys(ps)
    ensures i < |ps| && ps[i].0 == k
    ensures forall j :: i < j < |ps| ==> ps[j].0 != k
  {
    var n := |ps| - 1;
    if ps[n].0 == k then n
    else
      assert Keys(ps)[..n] == Keys(ps[..n]);
      assert k in Keys(ps[..n]) by {
        var j :| 0 <= j < |ps| && Keys(ps)[j] == k;
        assert j < n && Keys(ps[..n])[j] == k;
      }
      LastIndex(ps[..n], k)
  }

  /** The value of the last pair for `k`. */
  function LastValue<K(==, !new), V>(ps: seq<(K, V)>, k: K): V
    requires k in Keys(ps)
  {
    ps[LastIndex(ps, k)].1
  }

  lemma {:induction false} AddKeysMember<K(!new)>(ks: seq<K>, ns: seq<K>, x: K)
    ensures x in AddKeys(ks, ns) <==> x in ks || x in ns
    decreases |ns|
  {
    if ns != [] {
      var n := |ns| - 1;
      AddKeysMember(ks, ns[..n], x);
      assert ns == ns[..n] + [ns[n]];
    }
  }

  /** Writing a sequence of pairs: the keys follow first occurrence, every value is the last one written. */
  lemma UpdateFacts<K(!new), V>(d: seq<(K, V)>, ps: seq<(K, V)>)
    ensures Keys(Update(d, ps)) == AddKeys(Keys(d), Keys(ps))
    ensures forall k :: Get(Update(d, ps), k) == if k in Keys(ps) then Some(LastValue(ps, k)) else Get(d, k)
    ensures forall p :: p in Update(d, ps) ==> p in d || p in ps
    ensures UniqueKeys(d) ==> UniqueKeys(Update(d, ps))
  {
    UpdateKeys(d, ps);
    forall k ensures Get(Update(d, ps), k) == if k in Keys(ps) then Some(LastValue(ps, k)) else Get(d, k) {
      UpdateGet(d, ps, k);
    }
    UpdatePairs(d, ps);
    if UniqueKeys(d) {
      UpdateUnique(d, ps);
    }
  }

  /** The last pair and the keys of the pairs before it. */
  lemma KeysSplit<K(!new), V>(ps: seq<(K, V)>)
    requires ps != []
    ensures Keys(ps) == Keys(ps[..|ps| - 1]) + [ps[|ps| - 1].0]
  {
  }

  lemma {:induction false} UpdateKeys<K(!new), V>(d: seq<(K, V)>, ps: seq<(K, V)>)
    ensures Keys(Update(d, ps)) == AddKeys(Keys(d), Keys(ps))
    decreases |ps|
  {
    if ps != [] {
      var n := |ps| - 1;
      UpdateKeys(d, ps[..n]);
      KeysSplit(ps);
      assert Keys(ps)[..n] == Keys(ps[..n]);
    }
  }

  lemma {:induction false} UpdateGet<K(!new), V>(d: seq<(K, V)>, ps: seq<(K, V)>, k: K)
    ensures Get(Update(d, ps), k) == if k in Keys(ps) then Some(LastValue(ps, k)) else Get(d, k)
    decreases |ps|
  {
    if ps != [] {
      var n := |ps| - 1;
      UpdateGet(d, ps[..n], k);
      PutFacts(Update(d, ps[..n]), ps[n].0, ps[n].1);
      KeysSplit(ps);
      if k != ps[n].0 && k in Keys(ps) {
        assert k in Keys(ps[..n]);
      }
    }
  }

  lemma {:induction false} UpdatePairs<K(!new), V>(d: seq<(K, V)>, ps: seq<(K, V)>)
    ensures forall p :: p in Update(d, ps) ==> p in d || p in ps
    decreases |ps|
  {
    if ps != [] {
      var n := |ps| - 1;
      var init := ps[..n];
      UpdatePairs(d, init);
      PutFacts(Update(d, init), ps[n].0, ps[n].1);
      forall p | p in Update(d, ps) ensures p in d || p in ps {
        if p != ps[n] {
          assert p in Update(d, init);
          if p in init {
            var j :| 0 <= j < n && init[j] == p;
            assert ps[j] == p;
          }
        }
      }
    }
  }

  lemma {:induction false} UpdateUnique<K(!new), V>(d: seq<(K, V)>, ps: seq<(K, V)>)
    requires UniqueKeys(d)
    ensures UniqueKeys(Update(d, ps))
    decreases |ps|
  {
    if ps != [] {
      UpdateUnique(d, ps[..|ps| - 1]);
      PutFacts(Update(d, ps[..|ps| - 1]), ps[|ps| - 1].0, ps[|ps| - 1].1);
    }
  }

  lemma {:induction false} AddKeysAppend<K(!new)>(ks: seq<K>, ns: seq<K>, ms: seq<K>)
    ensures AddKeys(ks, ns + ms) == AddKeys(AddKeys(ks, ns), ms)
    decreases |ms|
  {
    if ms == [] {
      assert ns + ms == ns;
    } else {
      var n := |ms| - 1;
      assert (ns + ms)[..|ns + ms| - 1] == ns + ms[..n];
      AddKeysAppend(ks, ns, ms[..n]);
    }
  }

  /** Writing the keys of `AddKeys(js, ns)` after `ks` is writing `js`, then `ns`. */
  lemma {:induction false} AddKeysNested<K(!new)>(ks: seq<K>, js: seq<K>, ns: seq<K>)
    ensures AddKeys(ks, AddKeys(js, ns)) == AddKeys(AddKeys(ks, js), ns)
    decreases |ns|
  {
    if ns != [] {
      var n := |ns| - 1;
      var x := ns[n];
      var inner := AddKeys(js, ns[..n]);
      AddKeysNested(ks, js, ns[..n]);
      AddKeysMember(js, ns[..n], x);
      AddKeysMember(ks, js, x);
      AddKeysMember(AddKeys(ks, js), ns[..n], x);
      AddKeysMember(ks, inner, x);
      if x !in inner {
        AddKeysAppend(ks, inner, [x]);
        assert [x][..0] == [];
      }
    }
  }

  /** In a dict with unique keys, the last pair for a key is its only pair. */
  lemma LastValueUnique<K(!new), V>(d: seq<(K, V)>, k: K)
    requires UniqueKeys(d) && k in Keys(d)
    ensures Get(d, k) == Some(LastValue(d, k))
  {
    GetAt(d, LastIndex(d, k));
  }

  /** Two dicts with unique keys are equal when they have the same keys in the same order and agree on every value. */
  lemma DictExt<K(!new), V>(d1: seq<(K, V)>, d2: seq<(K, V)>)
    requires UniqueKeys(d1) && UniqueKeys(d2) && Keys(d1) == Keys(d2)
    requires forall k :: Get(d1, k) == Get(d2, k)
    ensures d1 == d2
  {
    assert |d1| == |Keys(d1)| == |d2|;
    forall i | 0 <= i < |d1| ensures d1[i] == d2[i] {
      assert d1[i].0 == Keys(d1)[i] == d2[i].0;
      GetAt(d1, i);
      GetAt(d2, i);
    }
  }

  /** `d.update(dict(ps))` has the same result as writing the pairs of `ps` one by one into `d`. */
  lemma UpdateFromPairs<K(!new), V>(d: seq<(K, V)>, ps: seq<(K, V)>)
    requires UniqueKeys(d)
    ensures Update(d, FromPairs(ps)) == Update(d, ps)
  {
    var e := FromPairs(ps);
    UpdateFacts([], ps);
    assert UniqueKeys<K, V>([]);
    UpdateFacts(d, e);
    UpdateFacts(d, ps);
    assert Keys<K, V>([]) == [];
    AddKeysNested(Keys(d), [], Keys(ps));
    assert AddKeys([], Keys(ps)) == Keys(e);
    assert AddKeys(Keys(d), []) == Keys(d);
    forall k ensures Get(Update(d, e), k) == Get(Update(d, ps), k) {
      AddKeysMember([], Keys(ps), k);
      if k in Keys(e) {
        LastValueUnique(e, k);
      }
    }
    DictExt(Update(d, e), Update(d, ps));
  }

  /** Writing `ps + qs` is writing `ps` and then `qs`. */
  lemma {:induction false} UpdateAppend<K(!new), V>(d: seq<(K, V)>, ps: seq<(K, V)>, qs: seq<(K, V)>)
    ensures Update(d, ps + qs) == Update(Update(d, ps), qs)
    decreases |qs|
  {
    if qs == [] {
      assert ps + qs == ps;
    } else {
      var n := |qs| - 1;
      assert (ps + qs)[..|ps + qs| - 1] == ps + qs[..n];
      assert (ps + qs)[|ps + qs| - 1] == qs[n];
      UpdateAppend(d, ps, qs[..n]);
    }
  }

  /** Keys that are already distinct are kept as they are. */
  lemma {:induction false} AddKeysDistinct<K(!new)>(ns: seq<K>)
    requires forall i, j :: 0 <= i < j < |ns| ==> ns[i] != ns[j]
    ensures AddKeys([], ns) == ns
    decreases |ns|
  {
    if ns != [] {
      var n := |ns| - 1;
      AddKeysDistinct(ns[..n]);
      assert ns[..n] + [ns[n]] == ns;
    }
  }

  /** `dict(ps)` of pairs with distinct keys holds exactly those pairs, in order. */
  lemma FromPairsDistinct<K(!new), V>(ps: seq<(K, V)>)
    requires UniqueKeys(ps)
    ensures FromPairs(ps) == ps
  {
    var d := FromPairs(ps);
    UpdateFacts([], ps);
    assert UniqueKeys<K, V>([]);
    assert Keys<K, V>([]) == [];
    AddKeysDistinct(Keys(ps));
    forall k ensures Get(d, k) == Get(ps, k) {
      if k in Keys(ps) {
        LastValueUnique(ps, k);
      }
    }
    DictExt(d, ps);
  }
}
