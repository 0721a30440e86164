/**
 * An insertion-ordered dictionary keyed by strings: the shape of Java's
 * `LinkedHashMap<String, V>` and of the own properties of a JavaScript object
 * with non-numeric keys. `Put` overwrites an existing key in place and appends
 * a new one; `Get` and `Remove` act on the first entry with the key.
 */
module LinkedMaps {
  import opened Options

  type LinkedMap<V> = seq<(string, V)>

  function Keys<V>(m: LinkedMap<V>): (ks: seq<string>)
    ensures |ks| == |m|
    ensures forall i :: 0 <= i < |m| ==> ks[i] == m[i].0
  {
    if m == [] then [] else [m[0].0] + Keys(m[1..])
  }

  predicate DistinctKeys<V>(m: LinkedMap<V>) {
    forall i, j :: 0 <= i < j < |m| ==> m[i].0 != m[j].0
  }

  function Get<V>(m: LinkedMap<V>, k: string): (r: Option<V>)
    ensures r.Some? ==> (k, r.value) in m
    ensures r.None? ==> forall i :: 0 <= i < |m| ==> m[i].0 != k
    ensures DistinctKeys(m) ==> forall i :: 0 <= i < |m| && m[i].0 == k ==> r == Some(m[i].1)
  {
    if m == [] then None
    else if m[0].0 == k then Some(m[0].1)
    else Get(m[1..], k)
  }

  function Put<V>(m: LinkedMap<V>, k: string, v: V): LinkedMap<V> {
    if m == [] then [(k, v)]
    else if m[0].0 == k then [(k, v)] + m[1..]
    else [m[0]] + Put(m[1..], k, v)
  }

  function Remove<V>(m: LinkedMap<V>, k: string): LinkedMap<V> {
    if m == [] then []
    else if m[0].0 == k then m[1..]
    else [m[0]] + Remove(m[1..], k)
  }

  /** After `Put`, the key maps to the new value and every other key is untouched. */
  lemma {:induction false} PutGet<V>(m: LinkedMap<V>, k: string, v: V)
    ensures Get(Put(m, k, v), k) == Some(v)
    ensures forall k' :: k' != k ==> Get(Put(m, k, v), k') == Get(m, k')
  {
    if m != [] && m[0].0 != k {
      PutGet(m[1..], k, v);
    }
  }

  /** `Put` of a new key appends it; `Put` of a present key keeps the key order. */
  lemma {:induction false} PutShape<V>(m: LinkedMap<V>, k: string, v: V)
    ensures Get(m, k).None? ==> Put(m, k, v) == m + [(k, v)]
    ensures Get(m, k).Some? ==> Keys(Put(m, k, v)) == Keys(m)
  {
    if m != [] && m[0].0 != k {
      var t := m[1..];
      PutShape(t, k, v);
      assert Put(m, k, v) == [m[0]] + Put(t, k, v);
      assert Get(m, k) == Get(t, k);
      if Get(t, k).None? {
        assert [m[0]] + (t + [(k, v)]) == m + [(k, v)];
      } else {
        assert Keys(Put(m, k, v)) == [m[0].0] + Keys(Put(t, k, v));
        assert Keys(m) == [m[0].0] + Keys(t);
      }
    } else if m != [] {
      assert Keys(Put(m, k, v)) == [k] + Keys(m[1..]);
      assert Keys(m) == [m[0].0] + Keys(m[1..]);
    }
  }

  /** `Put` keeps the keys distinct. */
  lemma PutDistinct<V>(m: LinkedMap<V>, k: string, v: V)
    requires DistinctKeys(m)
    ensures DistinctKeys(Put(m, k, v))
  {
    PutShape(m, k, v);
    var r := Put(m, k, v);
    if Get(m, k).Some? {
      assert forall i :: 0 <= i < |r| ==> r[i].0 == Keys(r)[i];
    }
  }

  /** The position of the first entry with key `k` (or `|m|` when there is none). */
  function IndexOf<V>(m: LinkedMap<V>, k: string): (i: nat)
    ensures i <= |m|
    ensures i < |m| ==> m[i].0 == k
  {
    if m == [] then 0 else if m[0].0 == k then 0 else 1 + IndexOf(m[1..], k)
  }

  /** `IndexOf` finds a position exactly when `Get` finds a value, and it is that value. */
  lemma {:induction false} IndexOfGet<V>(m: LinkedMap<V>, k: string)
    ensures IndexOf(m, k) < |m| <==> Get(m, k).Some?
    ensures IndexOf(m, k) < |m| ==> Get(m, k) == Some(m[IndexOf(m, k)].1)
  {
    if m != [] && m[0].0 != k {
      IndexOfGet(m[1..], k);
    }
  }

  /** `Remove` deletes exactly the first entry with the key, keeping the order of the
      rest; without the key it changes nothing. */
  lemma {:induction false} RemoveShape<V>(m: LinkedMap<V>, k: string)
    ensures var i := IndexOf(m, k);
      Remove(m, k) == if i < |m| then m[..i] + m[i + 1..] else m
  {
    if m == [] {
    } else if m[0].0 == k {
      assert m[1..] == m[..0] + m[1..];
    } else {
      var x, t := m[0], m[1..];
      assert m == [x] + t;
      RemoveShape(t, k);
      RemoveShapeCons(x, t, k);
    }
  }

  /** The inductive step of `RemoveShape`, past a first entry with another key. */
  lemma RemoveShapeCons<V>(x: (string, V), t: LinkedMap<V>, k: string)
    requires x.0 != k
    requires var i := IndexOf(t, k);
      Remove(t, k) == if i < |t| then t[..i] + t[i + 1..] else t
    ensures var m, i := [x] + t, IndexOf([x] + t, k);
      Remove(m, k) == if i < |m| then m[..i] + m[i + 1..] else m
  {
    RemoveCons(x, t, k);
    if IndexOf(t, k) < |t| {
      ConsSplice(x, t, IndexOf(t, k));
    }
  }

  /** `Remove` and `IndexOf` step over a first entry with another key. */
  lemma RemoveCons<V>(x: (string, V), t: LinkedMap<V>, k: string)
    requires x.0 != k
    ensures Remove([x] + t, k) == [x] + Remove(t, k)
    ensures IndexOf([x] + t, k) == 1 + IndexOf(t, k)
  {
    assert ([x] + t)[1..] == t;
  }

  /** Cutting one element out of a sequence commutes with putting an element in front. */
  lemma ConsSplice<T>(x: T, t: seq<T>, j: nat)
    requires j < |t|
    ensures [x] + (t[..j] + t[j + 1..]) == ([x] + t)[..j + 1] + ([x] + t)[j + 2..]
  {
    assert ([x] + t)[..j + 1] == [x] + t[..j];
    assert ([x] + t)[j + 2..] == t[j + 1..];
  }

  /** `Remove` leaves every other key's value alone, keeps only existing entries,
      and on distinct keys really removes the key. */
  lemma {:induction false} RemoveGet<V>(m: LinkedMap<V>, k: string)
    ensures forall k' :: k' != k ==> Get(Remove(m, k), k') == Get(m, k')
    ensures forall e :: e in Remove(m, k) ==> e in m
    ensures |Remove(m, k)| == |m| - (if Get(m, k).Some? then 1 else 0)
    ensures DistinctKeys(m) ==> DistinctKeys(Remove(m, k)) && Get(Remove(m, k), k).None?
  {
    if m != [] && m[0].0 != k {
      RemoveGet(m[1..], k);
      var r := Remove(m, k);
      if DistinctKeys(m) {
        assert forall i :: 0 < i < |r| ==> r[i] in m[1..];
      }
    }
  }

  /** The values in key order. */
  function Values<V>(m: LinkedMap<V>): (vs: seq<V>)
    ensures |vs| == |m|
    ensures forall i :: 0 <= i < |m| ==> vs[i] == m[i].1
  {
    if m == [] then [] else [m[0].1] + Values(m[1..])
  }

  /** Removing a key and putting it back moves it to the end: a leave followed by a
      re-join shows up last in insertion order. */
  lemma RemoveThenPutMovesLast<V>(m: LinkedMap<V>, k: string, v: V)
    requires DistinctKeys(m)
    ensures Put(Remove(m, k), k, v) == Remove(m, k) + [(k, v)]
  {
    RemoveGet(m, k);
    PutShape(Remove(m, k), k, v);
  }

  /** Looking up in a map with one entry appended: earlier entries win. */
  lemma {:induction false} GetAppend<V>(m: LinkedMap<V>, k': string, v: V, k: string)
    ensures Get(m + [(k', v)], k) == if Get(m, k).Some? then Get(m, k) else if k' == k then Some(v) else None
  {
    if m != [] {
      assert (m + [(k', v)])[1..] == m[1..] + [(k', v)];
      GetAppend(m[1..], k', v, k);
    }
  }
}
