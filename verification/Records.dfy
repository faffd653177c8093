/** A JavaScript object with string keys, seen as the list of its own properties in
    insertion order (the order `Object.keys` and `Object.entries` report). */
module Records {
  import opened Wrappers
  import opened Seqs

  type Record<V> = seq<(string, V)>

  /** `Object.keys(r)`. */
  function Keys<V>(r: Record<V>): (ks: seq<string>)
    ensures |ks| == |r|
    ensures forall i :: 0 <= i < |r| ==> ks[i] == r[i].0
  {
    if r == [] then [] else [r[0].0] + Keys(r[1..])
  }

  /** `r[k]`, with `None` for a missing property. */
  function Get<V>(r: Record<V>, k: string): (v: Option<V>)
    ensures v.Some? <==> k in Keys(r)
  {
    if r == [] then None else if r[0].0 == k then Some(r[0].1) else Get(r[1..], k)
  }

  /** `r[k] = v`: an existing property keeps its place, a new one goes last. */
  function Put<V>(r: Record<V>, k: string, v: V): Record<V> {
    if r == [] then [(k, v)]
    else if r[0].0 == k then [(k, v)] + r[1..]
    else [r[0]] + Put(r[1..], k, v)
  }

  /** `delete r[k]`. */
  function Delete<V>(r: Record<V>, k: string): Record<V> {
    if r == [] then []
    else if r[0].0 == k then Delete(r[1..], k)
    else [r[0]] + Delete(r[1..], k)
  }

  /** The entry for `k` in an object whose keys are distinct. */
  lemma {:induction false} GetAt<V>(r: Record<V>, i: nat)
    requires Distinct(Keys(r)) && i < |r|
    ensures Get(r, r[i].0) == Some(r[i].1)
  {
    if i > 0 {
      assert Keys(r)[0] != Keys(r)[i];
      assert Distinct(Keys(r[1..])) by {
        assert forall j :: 0 <= j < |r| - 1 ==> Keys(r[1..])[j] == Keys(r)[j + 1];
      }
      GetAt(r[1..], i - 1);
    }
  }

  /** The keys of a non-empty object are its first key followed by the keys of the rest;
      with distinct keys, the first key does not recur. */
  lemma {:induction false} KeysTail<V>(r: Record<V>)
    requires r != []
    ensures Keys(r) == [r[0].0] + Keys(r[1..])
    ensures Distinct(Keys(r)) ==> Distinct(Keys(r[1..])) && r[0].0 !in Keys(r[1..])
  {
    var tail := r[1..];
    assert forall j :: 0 <= j < |tail| ==> Keys(tail)[j] == Keys(r)[j + 1];
  }

  /** Assigning a new key appends it at the end. */
  lemma {:induction false} PutAppends<V>(r: Record<V>, k: string, v: V)
    requires k !in Keys(r)
    ensures Put(r, k, v) == r + [(k, v)]
  {
    if r != [] {
      KeysTail(r);
      PutAppends(r[1..], k, v);
      assert r == [r[0]] + r[1..];
    }
  }

  /** Assigning an existing key replaces its value where it stands. */
  lemma {:induction false} PutReplaces<V>(r: Record<V>, k: string, v: V, i: nat)
    requires Distinct(Keys(r)) && i < |r| && r[i].0 == k
    ensures Put(r, k, v) == r[i := (k, v)]
  {
    KeysTail(r);
    if i > 0 {
      assert Keys(r)[0] != Keys(r)[i];
      PutReplaces(r[1..], k, v, i - 1);
      assert r == [r[0]] + r[1..];
    }
  }

  /** Assignment keeps the keys, adding `k` at the end when it is new; distinct keys stay distinct. */
  lemma {:induction false} PutKeys<V>(r: Record<V>, k: string, v: V)
    requires Distinct(Keys(r))
    ensures Keys(Put(r, k, v)) == if k in Keys(r) then Keys(r) else Keys(r) + [k]
    ensures Distinct(Keys(Put(r, k, v)))
  {
    if r != [] {
      var tail, p := r[1..], Put(r, k, v);
      KeysTail(r);
      if r[0].0 != k {
        var q := Put(tail, k, v);
        PutKeys(tail, k, v);
        assert p == [r[0]] + q;
        assert p[1..] == q;
        KeysTail(p);
        assert r[0].0 !in Keys(q);
        DistinctCons(r[0].0, Keys(q));
      } else {
        assert p == [(k, v)] + tail;
        assert p[1..] == tail;
        KeysTail(p);
      }
    }
  }

  /** After `r[k] = v`, reading `k` gives `v` and every other key reads as before. */
  lemma {:induction false} PutGet<V>(r: Record<V>, k: string, v: V, k': string)
    ensures Get(Put(r, k, v), k') == if k' == k then Some(v) else Get(r, k')
  {
    if r != [] && r[0].0 != k {
      PutGet(r[1..], k, v, k');
    }
  }

  /** Deleting a missing key changes nothing. */
  lemma {:induction false} DeleteMissing<V>(r: Record<V>, k: string)
    requires k !in Keys(r)
    ensures Delete(r, k) == r
  {
    if r != [] {
      var tail := r[1..];
      KeysTail(r);
      assert r[0].0 != k && k !in Keys(tail);
      DeleteMissing(tail, k);
      assert Delete(r, k) == [r[0]] + tail;
      assert [r[0]] + tail == r;
    }
  }

  /** Deleting a key removes exactly its entry and keeps the others in order. */
  lemma {:induction false} DeleteRemoves<V>(r: Record<V>, k: string, i: nat)
    requires Distinct(Keys(r)) && i < |r| && r[i].0 == k
    ensures Delete(r, k) == r[..i] + r[i + 1..]
  {
    forall j | 0 <= j < |r| && j != i ensures r[j].0 != k {
      assert Keys(r)[j] != Keys(r)[i];
    }
    DeleteOnly(r, k, i);
  }

  /** `DeleteRemoves` for an entry whose key occurs nowhere else. */
  lemma {:induction false} DeleteOnly<V>(r: Record<V>, k: string, i: nat)
    requires i < |r| && r[i].0 == k
    requires forall j :: 0 <= j < |r| && j != i ==> r[j].0 != k
    ensures Delete(r, k) == r[..i] + r[i + 1..]
  {
    var tail := r[1..];
    if i == 0 {
      assert k !in Keys(tail);
      DeleteMissing(tail, k);
    } else {
      assert r[0].0 != k;
      forall j | 0 <= j < |tail| && j != i - 1 ensures tail[j].0 != k {
        assert tail[j] == r[j + 1];
      }
      DeleteOnly(tail, k, i - 1);
      assert r[..i] == [r[0]] + tail[..i - 1];
      assert r[i + 1..] == tail[i..];
    }
  }

  /** Deleting keeps every other key, and distinct keys stay distinct. */
  lemma {:induction false} DeleteKeys<V>(r: Record<V>, k: string)
    requires Distinct(Keys(r))
    ensures Distinct(Keys(Delete(r, k)))
    ensures forall x :: x in Keys(Delete(r, k)) <==> x in Keys(r) && x != k
  {
    if r != [] {
      KeysTail(r);
      DeleteKeys(r[1..], k);
      if r[0].0 != k {
        KeysTail(Delete(r, k));
      }
    }
  }

  /** After `delete r[k]`, `k` reads as missing and every other key reads as before. */
  lemma {:induction false} DeleteGet<V>(r: Record<V>, k: string, k': string)
    ensures Get(Delete(r, k), k') == if k' == k then None else Get(r, k')
  {
    if r != [] {
      DeleteGet(r[1..], k, k');
    }
  }

  /** Assigning a key the value it already has changes nothing. */
  lemma {:induction false} PutSame<V>(r: Record<V>, i: nat)
    requires Distinct(Keys(r)) && i < |r|
    ensures Put(r, r[i].0, r[i].1) == r
  {
    KeysTail(r);
    assert r == [r[0]] + r[1..];
    if i == 0 {
      assert Put(r, r[0].0, r[0].1) == [(r[0].0, r[0].1)] + r[1..];
    } else {
      assert Keys(r)[0] != Keys(r)[i];
      PutSame(r[1..], i - 1);
      assert Put(r, r[i].0, r[i].1) == [r[0]] + Put(r[1..], r[i].0, r[i].1);
    }
  }

  /** Assigning a key and then deleting it is the same as only deleting it. */
  lemma {:induction false} DeletePut<V>(r: Record<V>, k: string, v: V)
    ensures Delete(Put(r, k, v), k) == Delete(r, k)
  {
    if r != [] && r[0].0 != k {
      DeletePut(r[1..], k, v);
    }
  }

  /** Deleting another key leaves an entry appended at the end where it is. */
  lemma {:induction false} DeleteAppend<V>(r: Record<V>, k: string, v: V, x: string)
    requires k != x
    ensures Delete(r + [(k, v)], x) == Delete(r, x) + [(k, v)]
  {
    if r != [] {
      assert (r + [(k, v)])[1..] == r[1..] + [(k, v)];
      DeleteAppend(r[1..], k, v, x);
    }
  }

  /** The keys of a prefix are the prefix of the keys. */
  lemma {:induction false} KeysPrefix<V>(r: Record<V>, n: nat)
    requires n <= |r|
    ensures Keys(r[..n]) == Keys(r)[..n]
  {
  }

  /** The keys of a non-empty object are the keys of all but its last entry, then the last key. */
  lemma {:induction false} KeysSnoc<V>(r: Record<V>)
    requires r != []
    ensures Keys(r) == Keys(r[..|r| - 1]) + [r[|r| - 1].0]
  {
    assert r == r[..|r| - 1] + [r[|r| - 1]];
    KeysAppend(r[..|r| - 1], [r[|r| - 1]]);
  }

  /** The keys of two objects laid end to end. */
  lemma {:induction false} KeysAppend<V>(a: Record<V>, b: Record<V>)
    ensures Keys(a + b) == Keys(a) + Keys(b)
  {
    if a != [] {
      assert (a + b)[1..] == a[1..] + b;
      KeysAppend(a[1..], b);
    }
  }

  /** With distinct keys, the last key does not occur before it, and the keys before it are
      distinct. */
  lemma {:induction false} KeysInit<V>(r: Record<V>)
    requires r != [] && Distinct(Keys(r))
    ensures Distinct(Keys(r[..|r| - 1])) && r[|r| - 1].0 !in Keys(r[..|r| - 1])
  {
    KeysSnoc(r);
    DistinctSnoc(Keys(r[..|r| - 1]), r[|r| - 1].0);
  }

  /** Reading an object with one more entry at the end: earlier entries win. */
  lemma {:induction false} GetAppend<V>(r: Record<V>, k: string, v: V, x: string)
    ensures Get(r + [(k, v)], x) == if x in Keys(r) then Get(r, x) else if x == k then Some(v) else None
  {
    if r != [] {
      assert (r + [(k, v)])[1..] == r[1..] + [(k, v)];
      KeysTail(r);
      GetAppend(r[1..], k, v, x);
    }
  }
}
