/** The supervisor's bookkeeping containers: the `workers` map kept in
    insertion order (a JavaScript `Map`), the capped buffers used for logs
    and processing times (`slice(-n)` once a limit is passed), and sums. */
module Table {
  import opened Options

  /** `a` is the last `|a|` elements of `b`. */
  predicate IsSuffix<T(==)>(a: seq<T>, b: seq<T>) {
    |a| <= |b| && forall i :: 0 <= i < |a| ==> a[i] == b[|b| - |a| + i]
  }

  function Min(a: nat, b: nat): nat {
    if a <= b then a else b
  }

  /** After an append: once the buffer is longer than `limit`, only the
      newest `keep` elements stay. */
  function Cap<T(==)>(xs: seq<T>, limit: nat, keep: nat): (r: seq<T>)
    requires 0 < keep <= limit
    ensures IsSuffix(r, xs)
    ensures |r| <= limit
    ensures |r| >= Min(|xs|, keep)
    ensures |xs| <= limit ==> r == xs
    ensures |xs| > limit ==> |r| == keep
  {
    if |xs| > limit then xs[|xs| - keep..] else xs
  }

  /** `reduce((a, b) => a + b, 0)` over exact reals. */
  function Sum(xs: seq<real>): real {
    if |xs| == 0 then 0.0 else Sum(xs[..|xs| - 1]) + xs[|xs| - 1]
  }

  /** One entry of an insertion-ordered map. */
  datatype Entry<V> = Entry(key: string, value: V)

  predicate DistinctKeys<V(==)>(m: seq<Entry<V>>) {
    forall i, j :: 0 <= i < j < |m| ==> m[i].key != m[j].key
  }

  predicate HasKey<V(==)>(m: seq<Entry<V>>, k: string) {
    exists i :: 0 <= i < |m| && m[i].key == k
  }

  /** `m.get(k)`. */
  function Get<V(==)>(m: seq<Entry<V>>, k: string): (r: Option<V>)
    ensures r.None? <==> !HasKey(m, k)
    ensures r.Some? ==> Entry(k, r.value) in m
    ensures DistinctKeys(m) ==> forall i :: 0 <= i < |m| && m[i].key == k ==> r == Some(m[i].value)
  {
    if |m| == 0 then None
    else if m[0].key == k then Some(m[0].value)
    else
      var r := Get(m[1..], k);
      assert forall i :: 1 <= i < |m| ==> m[i] == m[1..][i - 1];
      r
  }

  /** `m.set(k, v)`: a present key keeps its position, a new key goes last. */
  function Put<V(==)>(m: seq<Entry<V>>, k: string, v: V): (r: seq<Entry<V>>)
    ensures HasKey(m, k) ==> |r| == |m|
    ensures !HasKey(m, k) ==> r == m + [Entry(k, v)]
    ensures forall i :: 0 <= i < |m| ==> r[i].key == m[i].key
    ensures forall i :: 0 <= i < |m| && m[i].key != k ==> r[i] == m[i]
    ensures Entry(k, v) in r
  {
    if HasKey(m, k) then
      var r := seq(|m|, i requires 0 <= i < |m| => if m[i].key == k then Entry(k, v) else m[i]);
      assert Entry(k, v) in r by {
        var i :| 0 <= i < |m| && m[i].key == k;
        assert r[i] == Entry(k, v);
      }
      r
    else
      m + [Entry(k, v)]
  }

  /** With distinct keys, `set` then `get` returns the new value under its
      key and the old values under every other key. */
  lemma {:induction false} PutGet<V>(m: seq<Entry<V>>, k: string, v: V)
    requires DistinctKeys(m)
    ensures DistinctKeys(Put(m, k, v))
    ensures Get(Put(m, k, v), k) == Some(v)
    ensures forall k' :: k' != k ==> Get(Put(m, k, v), k') == Get(m, k')
  {
    var r := Put(m, k, v);
    PutKeys(m, k, v);
    var i :| 0 <= i < |r| && r[i] == Entry(k, v);
    assert Get(r, k) == Some(v);
    forall k' | k' != k
      ensures Get(r, k') == Get(m, k')
    {
      PutOtherKey(m, k, v, k');
    }
  }

  lemma {:induction false} PutKeys<V>(m: seq<Entry<V>>, k: string, v: V)
    requires DistinctKeys(m)
    ensures DistinctKeys(Put(m, k, v))
  {
    var r := Put(m, k, v);
    if !HasKey(m, k) {
      forall i, j | 0 <= i < j < |r|
        ensures r[i].key != r[j].key
      {
        if j == |m| {
          assert r[i].key == m[i].key;
        }
      }
    }
  }

  lemma {:induction false} PutOtherKey<V>(m: seq<Entry<V>>, k: string, v: V, k': string)
    requires DistinctKeys(m) && k' != k
    ensures Get(Put(m, k, v), k') == Get(m, k')
  {
    var r := Put(m, k, v);
    PutKeys(m, k, v);
    if HasKey(m, k') {
      var j :| 0 <= j < |m| && m[j].key == k';
      assert r[j] == m[j];
    } else {
      assert forall j :: 0 <= j < |r| ==> r[j].key != k' by {
        assert forall j :: 0 <= j < |m| ==> r[j].key == m[j].key;
      }
    }
  }

  /** Adding a key the map does not have. */
  lemma AppendNewKey<V>(m: seq<Entry<V>>, k: string, v: V)
    requires DistinctKeys(m) && !HasKey(m, k)
    ensures DistinctKeys(m + [Entry(k, v)])
    ensures forall e :: e in m + [Entry(k, v)] <==> e in m || e == Entry(k, v)
    ensures forall k' :: HasKey(m + [Entry(k, v)], k') <==> HasKey(m, k') || k' == k
    ensures forall k' :: k' != k ==> Get(m + [Entry(k, v)], k') == Get(m, k')
  {
    var w := m + [Entry(k, v)];
    assert Put(m, k, v) == w;
    assert DistinctKeys(w) by {
      PutKeys(m, k, v);
    }
    assert forall k' :: k' != k ==> Get(w, k') == Get(m, k') by {
      PutGet(m, k, v);
    }
    forall k' | HasKey(m, k')
      ensures HasKey(w, k')
    {
      var i :| 0 <= i < |m| && m[i].key == k';
      assert w[i].key == k';
    }
    forall k' | HasKey(w, k')
      ensures HasKey(m, k') || k' == k
    {
      var i :| 0 <= i < |w| && w[i].key == k';
      if i < |m| {
        assert m[i].key == k';
      }
    }
  }

  /** `m.delete(k)`. */
  function Delete<V(==)>(m: seq<Entry<V>>, k: string): (r: seq<Entry<V>>)
    ensures !HasKey(r, k)
    ensures forall k' :: k' != k ==> Get(r, k') == Get(m, k')
    ensures forall e :: e in r ==> e in m
    ensures !HasKey(m, k) ==> r == m
  {
    if |m| == 0 then []
    else
      var rest := Delete(m[1..], k);
      if m[0].key == k then rest
      else
        var r := [m[0]] + rest;
        assert forall i :: 1 <= i < |r| ==> r[i] == rest[i - 1];
        r
  }

  /** `delete` keeps keys distinct. */
  lemma {:induction false} DeleteGet<V>(m: seq<Entry<V>>, k: string)
    requires DistinctKeys(m)
    ensures DistinctKeys(Delete(m, k))
  {
    if |m| > 0 {
      assert DistinctKeys(m[1..]) by {
        assert forall i :: 0 <= i < |m[1..]| ==> m[1..][i] == m[i + 1];
      }
      DeleteGet(m[1..], k);
      var rest := Delete(m[1..], k);
      if m[0].key != k {
        var r := [m[0]] + rest;
        assert forall i :: 1 <= i < |r| ==> r[i] == rest[i - 1];
        forall i | 1 <= i < |r|
          ensures r[i].key != m[0].key
        {
          assert r[i] in m[1..];
        }
      }
    }
  }

  /** The keys in insertion order. */
  function Keys<V(==)>(m: seq<Entry<V>>): (ks: seq<string>)
    ensures |ks| == |m|
    ensures forall i :: 0 <= i < |m| ==> ks[i] == m[i].key
  {
    if |m| == 0 then [] else [m[0].key] + Keys(m[1..])
  }

  /** The sum of `f` over the map's values. */
  function Tally<V(==)>(m: seq<Entry<V>>, f: V -> nat): nat {
    if |m| == 0 then 0 else f(m[0].value) + Tally(m[1..], f)
  }

  /** Overwriting one entry changes the tally by the difference of the
      two values. */
  lemma {:induction false} TallyUpdate<V>(m: seq<Entry<V>>, j: nat, e: Entry<V>, f: V -> nat)
    requires j < |m|
    ensures Tally(m[j := e], f) + f(m[j].value) == Tally(m, f) + f(e.value)
  {
    if j > 0 {
      TallyUpdate(m[1..], j - 1, e, f);
      assert m[j := e][1..] == m[1..][j - 1 := e];
    }
  }

  /** Appending an entry adds its value to the tally. */
  lemma {:induction false} TallyAppend<V>(m: seq<Entry<V>>, e: Entry<V>, f: V -> nat)
    ensures Tally(m + [e], f) == Tally(m, f) + f(e.value)
  {
    if |m| > 0 {
      TallyAppend(m[1..], e, f);
      assert (m + [e])[1..] == m[1..] + [e];
    } else {
      assert m + [e] == [e];
    }
  }

  /** Overwriting a present key changes the tally by the difference of the
      two values; adding a new key adds the new value. */
  lemma TallyPut<V>(m: seq<Entry<V>>, k: string, v: V, f: V -> nat)
    requires DistinctKeys(m)
    ensures Get(m, k).Some? ==> Tally(Put(m, k, v), f) + f(Get(m, k).value) == Tally(m, f) + f(v)
    ensures Get(m, k).None? ==> Tally(Put(m, k, v), f) == Tally(m, f) + f(v)
  {
    if HasKey(m, k) {
      var j :| 0 <= j < |m| && m[j].key == k;
      assert Put(m, k, v) == m[j := Entry(k, v)];
      TallyUpdate(m, j, Entry(k, v), f);
    } else {
      TallyAppend(m, Entry(k, v), f);
    }
  }
}
