/**
 * A JavaScript `Map`: key/value entries kept in insertion order. `set` on a
 * key that is present replaces the value where the entry stands; `set` on a
 * new key appends; `delete` removes the entry and keeps the others in order.
 * Iteration (`keys()`, `values()`, `entries()`) follows that order.
 */
module InsertionMap {
  import opened Wrappers

  datatype Entry<K, V> = Entry(key: K, value: V)

  function Keys<K, V>(t: seq<Entry<K, V>>): (ks: seq<K>)
    ensures |ks| == |t| && forall i :: 0 <= i < |t| ==> ks[i] == t[i].key
  {
    seq(|t|, i requires 0 <= i < |t| => t[i].key)
  }

  function Values<K, V>(t: seq<Entry<K, V>>): (vs: seq<V>)
    ensures |vs| == |t| && forall i :: 0 <= i < |t| ==> vs[i] == t[i].value
  {
    seq(|t|, i requires 0 <= i < |t| => t[i].value)
  }

  /** The well-formedness of a map: no key occurs twice. */
  predicate UniqueKeys<K(==), V>(t: seq<Entry<K, V>>) {
    forall i, j :: 0 <= i < j < |t| ==> t[i].key != t[j].key
  }

  /** `m.has(k)`. */
  predicate Has<K(==), V>(t: seq<Entry<K, V>>, k: K) {
    k in Keys(t)
  }

  /** The position of the entry for `k`, if there is one. */
  function IndexOf<K(==), V>(t: seq<Entry<K, V>>, k: K): (r: Option<nat>)
    ensures r.Some? ==> r.value < |t| && t[r.value].key == k
    ensures r.Some? ==> forall j :: 0 <= j < r.value ==> t[j].key != k
    ensures r.None? <==> !Has(t, k)
    decreases |t|
  {
    if t == [] then None
    else if t[0].key == k then Some(0)
    else match IndexOf(t[1..], k)
      case None => None
      case Some(i) => Some(i + 1)
  }

  /** `m.get(k)`: the value stored under `k`, or `undefined`. */
  function Get<K(==), V>(t: seq<Entry<K, V>>, k: K): (r: Option<V>)
    ensures r.Some? <==> Has(t, k)
  {
    match IndexOf(t, k)
    case Some(i) => Some(t[i].value)
    case None => None
  }

  /** `m.set(k, v)`. */
  function Set<K(==), V>(t: seq<Entry<K, V>>, k: K, v: V): (r: seq<Entry<K, V>>)
  {
    match IndexOf(t, k)
    case Some(i) => t[i := Entry(k, v)]
    case None => t + [Entry(k, v)]
  }

  /** `m.delete(k)`. */
  function Delete<K(==), V>(t: seq<Entry<K, V>>, k: K): (r: seq<Entry<K, V>>)
  {
    match IndexOf(t, k)
    case Some(i) => t[..i] + t[i + 1..]
    case None => t
  }

  /** Looking up a key in a table that starts with a given entry. */
  lemma GetCons<K, V>(e: Entry<K, V>, u: seq<Entry<K, V>>, k: K)
    ensures Get([e] + u, k) == if e.key == k then Some(e.value) else Get(u, k)
  {
    if e.key == k {
      GetConsHead(e, u, k);
    } else {
      GetConsTail(e, u, k);
    }
  }

  lemma GetConsHead<K, V>(e: Entry<K, V>, u: seq<Entry<K, V>>, k: K)
    requires e.key == k
    ensures Get([e] + u, k) == Some(e.value)
  {
    var t := [e] + u;
    assert t[0] == e;
    assert IndexOf(t, k) == Some(0);
  }

  lemma GetConsTail<K, V>(e: Entry<K, V>, u: seq<Entry<K, V>>, k: K)
    requires e.key != k
    ensures Get([e] + u, k) == Get(u, k)
  {
    var t := [e] + u;
    IndexOfCons(e, u, k);
    match IndexOf(u, k) {
      case Some(i) =>
        assert t[i + 1] == u[i];
      case None =>
    }
  }

  lemma IndexOfCons<K, V>(e: Entry<K, V>, u: seq<Entry<K, V>>, k: K)
    requires e.key != k
    ensures IndexOf([e] + u, k) == match IndexOf(u, k) case None => None case Some(i) => Some(i + 1)
  {
    var t := [e] + u;
    assert t[0] == e && t[1..] == u;
  }

  /** In a well-formed map, the entry at a position is what `get` returns for its key. */
  lemma GetAt<K, V>(t: seq<Entry<K, V>>, i: nat)
    requires UniqueKeys(t) && i < |t|
    ensures IndexOf(t, t[i].key) == Some(i)
    ensures Get(t, t[i].key) == Some(t[i].value)
  {
  }

  /**
   * `set` keeps the map well-formed, makes `get(k)` return `v`, leaves every
   * other key's value alone, and keeps an existing key at its first-insertion
   * position (only a new key goes to the end).
   */
  /** Whatever the table, `Set` stores `v` under `k` and leaves the other keys' values alone. */
  lemma SetGet<K, V>(t: seq<Entry<K, V>>, k: K, v: V, k2: K)
    ensures Get(Set(t, k, v), k2) == if k2 == k then Some(v) else Get(t, k2)
  {
    var r := Set(t, k, v);
    match IndexOf(t, k)
    case Some(i) =>
      assert r == t[i := Entry(k, v)];
      assert Keys(r) == Keys(t);
      IndexOfByKeys(r, t, k2);
      if k2 != k {
        match IndexOf(t, k2)
        case Some(j) =>
          assert j != i && r[j] == t[j];
        case None =>
      }
    case None =>
      assert r == t + [Entry(k, v)];
      IndexOfAppend(t, Entry(k, v), k2);
  }

  /** `IndexOf` looks at the keys only. */
  lemma IndexOfByKeys<K, V>(s1: seq<Entry<K, V>>, s2: seq<Entry<K, V>>, k: K)
    requires Keys(s1) == Keys(s2)
    ensures IndexOf(s1, k) == IndexOf(s2, k)
  {
    assert |s1| == |Keys(s1)| == |s2|;
    assert forall j :: 0 <= j < |s1| ==> s1[j].key == Keys(s1)[j] == s2[j].key;
    match IndexOf(s1, k)
    case Some(p) =>
      IndexOfFirst(s2, k, p);
    case None =>
  }

  /** The position of the first entry with key `k` is what `IndexOf` finds. */
  lemma IndexOfFirst<K, V>(s: seq<Entry<K, V>>, k: K, p: nat)
    requires p < |s| && s[p].key == k && forall j :: 0 <= j < p ==> s[j].key != k
    ensures IndexOf(s, k) == Some(p)
  {
    assert Keys(s)[p] == k;
    var q := IndexOf(s, k).value;
    assert !(q < p) && !(p < q);
  }

  lemma LacksKey<K, V>(t: seq<Entry<K, V>>, k: K)
    requires !Has(t, k)
    ensures forall j :: 0 <= j < |t| ==> t[j].key != k
  {
    forall j | 0 <= j < |t|
      ensures t[j].key != k
    {
      assert Keys(t)[j] == t[j].key;
    }
  }

  /** Looking up in a table with one entry appended. */
  lemma IndexOfAppend<K, V>(t: seq<Entry<K, V>>, e: Entry<K, V>, k: K)
    ensures IndexOf(t + [e], k) == if Has(t, k) then IndexOf(t, k) else if e.key == k then Some(|t|) else None
  {
    if Has(t, k) {
      IndexOfAppendPresent(t, e, k);
    } else if e.key == k {
      IndexOfAppendLast(t, e, k);
    } else {
      IndexOfAppendAbsent(t, e, k);
    }
  }

  lemma IndexOfAppendPresent<K, V>(t: seq<Entry<K, V>>, e: Entry<K, V>, k: K)
    requires Has(t, k)
    ensures IndexOf(t + [e], k) == IndexOf(t, k)
  {
    var r := t + [e];
    var p := IndexOf(t, k).value;
    forall j | 0 <= j < p
      ensures r[j].key != k
    {
      assert r[j] == t[j];
    }
    assert r[p] == t[p];
    IndexOfFirst(r, k, p);
  }

  lemma IndexOfAppendLast<K, V>(t: seq<Entry<K, V>>, e: Entry<K, V>, k: K)
    requires !Has(t, k) && e.key == k
    ensures IndexOf(t + [e], k) == Some(|t|)
  {
    var r := t + [e];
    LacksKey(t, k);
    forall j | 0 <= j < |t|
      ensures r[j].key != k
    {
      assert r[j] == t[j];
    }
    IndexOfFirst(r, k, |t|);
  }

  lemma IndexOfAppendAbsent<K, V>(t: seq<Entry<K, V>>, e: Entry<K, V>, k: K)
    requires !Has(t, k) && e.key != k
    ensures IndexOf(t + [e], k) == None
  {
    var r := t + [e];
    LacksKey(t, k);
    forall j | 0 <= j < |r|
      ensures Keys(r)[j] != k
    {
      assert Keys(r)[j] == r[j].key;
      if j < |t| {
        assert r[j] == t[j];
      }
    }
    assert !Has(r, k);
  }

  lemma SetProperties<K, V>(t: seq<Entry<K, V>>, k: K, v: V)
    requires UniqueKeys(t)
    ensures UniqueKeys(Set(t, k, v))
    ensures Get(Set(t, k, v), k) == Some(v)
    ensures forall k' :: k' != k ==> Get(Set(t, k, v), k') == Get(t, k')
    ensures Keys(Set(t, k, v)) == if Has(t, k) then Keys(t) else Keys(t) + [k]
  {
    var r := Set(t, k, v);
    if Has(t, k) {
      assert Keys(r) == Keys(t);
    } else {
      assert Keys(r) == Keys(t) + [k];
    }
    assert Has(r, k);
    var i :| 0 <= i < |r| && r[i].key == k;
    assert r[i].value == v;
    GetAt(r, i);
    forall k' | k' != k
      ensures Get(r, k') == Get(t, k')
    {
      if Has(t, k') {
        var j :| 0 <= j < |t| && t[j].key == k';
        GetAt(t, j);
        assert r[j] == t[j];
        GetAt(r, j);
      } else {
        assert !Has(r, k');
      }
    }
  }

  /** Removing the entry at position `i` shifts the later entries down by one. */
  lemma RemoveAt<K, V>(t: seq<Entry<K, V>>, i: nat, r: seq<Entry<K, V>>)
    requires i < |t| && r == t[..i] + t[i + 1..]
    ensures |r| == |t| - 1
    ensures forall j :: 0 <= j < |r| ==> r[j] == t[if j < i then j else j + 1]
  {
  }

  /** `delete` keeps the map well-formed and makes `get(k)` undefined; the size drops by one exactly when `k` was present. */
  lemma DeleteProperties<K, V>(t: seq<Entry<K, V>>, k: K)
    requires UniqueKeys(t)
    ensures UniqueKeys(Delete(t, k))
    ensures !Has(Delete(t, k), k)
    ensures |Delete(t, k)| == if Has(t, k) then |t| - 1 else |t|
  {
    match IndexOf(t, k)
    case None => {}
    case Some(i) => {
      RemoveAt(t, i, Delete(t, k));
    }
  }

  /** `delete(k)` leaves the value of every other key alone. */
  lemma DeleteOther<K, V>(t: seq<Entry<K, V>>, k: K, k': K)
    requires UniqueKeys(t) && k' != k
    ensures Get(Delete(t, k), k') == Get(t, k')
  {
    DeleteProperties(t, k);
    var r := Delete(t, k);
    match IndexOf(t, k)
    case None => {}
    case Some(i) => {
      RemoveAt(t, i, Delete(t, k));
      match IndexOf(t, k')
      case Some(j) => {
        var j' := if j < i then j else j - 1;
        assert r[j'] == t[j];
        GetAt(r, j');
      }
      case None => {
        assert !Has(r, k');
      }
    }
  }

  /** Deleting the key of the first entry drops exactly that entry. */
  lemma DeleteFirst<K, V>(t: seq<Entry<K, V>>)
    requires t != []
    ensures Delete(t, t[0].key) == t[1..]
  {
  }

  /** The first entry after a prefix that does not hold its key is found at the prefix's length. */
  lemma IndexAfterPrefix<K, V>(pre: seq<Entry<K, V>>, rest: seq<Entry<K, V>>)
    requires rest != [] && !Has(pre, rest[0].key)
    ensures IndexOf(pre + rest, rest[0].key) == Some(|pre|)
  {
    var t := pre + rest;
    var k := rest[0].key;
    LacksKey(pre, k);
    forall j | 0 <= j < |pre|
      ensures t[j].key != k
    {
      assert t[j] == pre[j];
    }
    assert t[|pre|] == rest[0];
    IndexOfFirst(t, k, |pre|);
  }

  /**
   * Deleting the key of the first entry after a prefix that does not hold
   * that key drops exactly that entry.
   */
  lemma DeleteAfterPrefix<K, V>(pre: seq<Entry<K, V>>, rest: seq<Entry<K, V>>)
    requires rest != [] && !Has(pre, rest[0].key)
    ensures Delete(pre + rest, rest[0].key) == pre + rest[1..]
  {
    IndexAfterPrefix(pre, rest);
    var t := pre + rest;
    assert t[..|pre|] == pre;
    assert t[|pre| + 1..] == rest[1..];
  }

  /** Every entry after `set(k, v)` was there before or is the new one. */
  lemma SetEntries<K, V>(t: seq<Entry<K, V>>, k: K, v: V)
    ensures forall e :: e in Set(t, k, v) ==> e in t || e == Entry(k, v)
  {
  }

  /** `delete` only removes entries. */
  lemma DeleteEntries<K, V>(t: seq<Entry<K, V>>, k: K)
    ensures forall e :: e in Delete(t, k) ==> e in t
  {
    match IndexOf(t, k)
    case None => {}
    case Some(i) => {
      forall e | e in t[..i] + t[i + 1..]
        ensures e in t
      {
        if e in t[..i] {
          var j :| 0 <= j < i && t[j] == e;
        } else {
          var j :| 0 <= j < |t| - i - 1 && t[i + 1..][j] == e;
          assert t[i + 1 + j] == e;
        }
      }
    }
  }

  /** A key present after `delete(k)` was present before and is not `k`. */
  lemma DeleteKeys<K, V>(t: seq<Entry<K, V>>, k: K, k': K)
    requires UniqueKeys(t) && Has(Delete(t, k), k')
    ensures Has(t, k') && k' != k
  {
    DeleteEntries(t, k);
    DeleteProperties(t, k);
    var j :| 0 <= j < |Delete(t, k)| && Delete(t, k)[j].key == k';
    assert Delete(t, k)[j] in t;
    var i :| 0 <= i < |t| && t[i] == Delete(t, k)[j];
    assert Keys(t)[i] == k';
  }
}
