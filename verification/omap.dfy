/** Ruby hashes keyed by component name, as insertion-ordered association
    lists: `to_h`, `[]`, `key?`, `keys`, `values`, `merge` and `delete_if`. */
module OrderedMaps {
  import opened Base

  /** A hash: its entries in insertion order. */
  type OMap<V> = seq<(string, V)>

  function Keys<V>(m: OMap<V>): (ks: seq<string>)
    ensures |ks| == |m| && forall i :: 0 <= i < |m| ==> ks[i] == m[i].0
  {
    seq(|m|, i requires 0 <= i < |m| => m[i].0)
  }

  function Values<V>(m: OMap<V>): (vs: seq<V>)
    ensures |vs| == |m| && forall i :: 0 <= i < |m| ==> vs[i] == m[i].1
  {
    seq(|m|, i requires 0 <= i < |m| => m[i].1)
  }

  lemma KeysCons<V>(m: OMap<V>)
    requires |m| > 0
    ensures Keys(m) == [m[0].0] + Keys(m[1..])
  {
  }

  /** No key appears twice, as in every Ruby hash. */
  predicate UniqueKeys<V>(m: OMap<V>) {
    forall i, j :: 0 <= i < j < |m| ==> m[i].0 != m[j].0
  }

  /** `h[k]`: the value of the first entry with key `k`. */
  function Lookup<V>(m: OMap<V>, k: string): (r: Option<V>)
    ensures r.None? <==> k !in Keys(m)
    ensures r.Some? ==> exists i :: 0 <= i < |m| && m[i] == (k, r.value)
  {
    if |m| == 0 then None
    else if m[0].0 == k then Some(m[0].1)
    else
      var r := Lookup(m[1..], k);
      assert r.Some? ==> exists i :: 0 <= i < |m[1..]| && m[1..][i] == (k, r.value);
      KeysCons(m);
      r
  }

  /** In a hash, the entry with key `k` is the one `Lookup` finds. */
  lemma LookupAt<V>(m: OMap<V>, i: nat)
    requires UniqueKeys(m) && i < |m|
    ensures Lookup(m, m[i].0) == Some(m[i].1)
  {
    var r := Lookup(m, m[i].0);
    assert m[i].0 in Keys(m);
    var j :| 0 <= j < |m| && m[j] == (m[i].0, r.value);
  }

  /** The position of key `k`. */
  function KeyIndex<V>(m: OMap<V>, k: string): (i: nat)
    requires k in Keys(m)
    ensures i < |m| && m[i].0 == k
  {
    if m[0].0 == k then 0
    else
      KeysCons(m);
      1 + KeyIndex(m[1..], k)
  }

  /** `h[k] = v`: an existing key keeps its position and takes the new
      value; a new key goes last. */
  function Put<V>(m: OMap<V>, k: string, v: V): OMap<V> {
    if k in Keys(m) then m[KeyIndex(m, k) := (k, v)] else m + [(k, v)]
  }

  lemma PutProperties<V>(m: OMap<V>, k: string, v: V)
    requires UniqueKeys(m)
    ensures UniqueKeys(Put(m, k, v))
    ensures Keys(Put(m, k, v)) == if k in Keys(m) then Keys(m) else Keys(m) + [k]
    ensures Lookup(Put(m, k, v), k) == Some(v)
    ensures forall k' :: k' != k ==> Lookup(Put(m, k, v), k') == Lookup(m, k')
  {
    PutKeys(m, k, v);
    forall k' | k' != k
      ensures Lookup(Put(m, k, v), k') == Lookup(m, k')
    {
      PutOther(m, k, v, k');
    }
    if k in Keys(m) {
      LookupAt(Put(m, k, v), KeyIndex(m, k));
    } else {
      LookupAt(Put(m, k, v), |m|);
    }
  }

  lemma PutKeys<V>(m: OMap<V>, k: string, v: V)
    requires UniqueKeys(m)
    ensures UniqueKeys(Put(m, k, v))
    ensures Keys(Put(m, k, v)) == if k in Keys(m) then Keys(m) else Keys(m) + [k]
  {
  }

  lemma PutOther<V>(m: OMap<V>, k: string, v: V, k': string)
    requires UniqueKeys(m) && k' != k
    ensures Lookup(Put(m, k, v), k') == Lookup(m, k')
  {
    var r := Put(m, k, v);
    PutKeys(m, k, v);
    if k' in Keys(m) {
      var i := KeyIndex(m, k');
      LookupAt(m, i);
      assert r[i] == m[i];
      LookupAt(r, i);
    } else {
      assert k' !in Keys(r);
    }
  }

  /** The keys of `s`, each once, in order of first appearance. */
  function Dedup(s: seq<string>): (d: seq<string>)
    ensures forall x :: x in d <==> x in s
  {
    if |s| == 0 then []
    else
      var d := Dedup(s[..|s| - 1]);
      assert s == s[..|s| - 1] + [s[|s| - 1]];
      if s[|s| - 1] in d then d else d + [s[|s| - 1]]
  }

  /** `to_h`: each item stored under its key, in order, so a later item
      replaces an earlier one with the same key in place. */
  function FromList<T>(items: seq<T>, key: T -> string): OMap<T> {
    if |items| == 0 then []
    else Put(FromList(items[..|items| - 1], key), key(items[|items| - 1]), items[|items| - 1])
  }

  function KeyList<T>(items: seq<T>, key: T -> string): (ks: seq<string>)
    ensures |ks| == |items| && forall i :: 0 <= i < |items| ==> ks[i] == key(items[i])
  {
    seq(|items|, i requires 0 <= i < |items| => key(items[i]))
  }

  /** Property: `to_h` builds a hash whose keys are the items' keys, each
      once, in order of first appearance. */
  lemma {:induction false} FromListKeys<T>(items: seq<T>, key: T -> string)
    ensures UniqueKeys(FromList(items, key))
    ensures Keys(FromList(items, key)) == Dedup(KeyList(items, key))
  {
    if |items| > 0 {
      var init := items[..|items| - 1];
      var x := items[|items| - 1];
      FromListKeys(init, key);
      PutProperties(FromList(init, key), key(x), x);
      assert KeyList(items, key)[..|items| - 1] == KeyList(init, key);
    }
  }

  /** Every entry of `to_h` holds one of the items, under that item's key. */
  lemma {:induction false} FromListEntries<T>(items: seq<T>, key: T -> string)
    ensures forall i :: 0 <= i < |FromList(items, key)| ==>
      FromList(items, key)[i].1 in items && key(FromList(items, key)[i].1) == FromList(items, key)[i].0
  {
    if |items| > 0 {
      var init := items[..|items| - 1];
      FromListEntries(init, key);
      assert forall x :: x in init ==> x in items;
    }
  }

  /** Property: `to_h` has an entry for a key exactly when some item has it. */
  lemma FromListLookupNone<T>(items: seq<T>, key: T -> string, k: string)
    ensures Lookup(FromList(items, key), k).None? <==>
      forall i :: 0 <= i < |items| ==> key(items[i]) != k
  {
    FromListKeys(items, key);
    var ks := KeyList(items, key);
    if k in ks {
      var i :| 0 <= i < |ks| && ks[i] == k;
      assert key(items[i]) == k;
    }
  }

  /** Property: with a repeated key, `to_h` keeps the item that comes last. */
  lemma {:induction false} FromListLookupLast<T>(items: seq<T>, key: T -> string, i: nat)
    requires i < |items|
    requires forall j :: i < j < |items| ==> key(items[j]) != key(items[i])
    ensures Lookup(FromList(items, key), key(items[i])) == Some(items[i])
  {
    var init := items[..|items| - 1];
    var x := items[|items| - 1];
    FromListKeys(init, key);
    PutProperties(FromList(init, key), key(x), x);
    if i < |items| - 1 {
      assert init[i] == items[i];
      FromListLookupLast(init, key, i);
    }
  }

  /** `a.merge(b)`: the entries of `b` put into `a`, in order. */
  function Merge<V>(a: OMap<V>, b: OMap<V>): OMap<V> {
    if |b| == 0 then a
    else
      var last := b[|b| - 1];
      Put(Merge(a, b[..|b| - 1]), last.0, last.1)
  }

  /** Property: merging hashes with no key in common appends one to the other. */
  lemma {:induction false} MergeDisjoint<V>(a: OMap<V>, b: OMap<V>)
    requires UniqueKeys(a + b)
    ensures Merge(a, b) == a + b
  {
    if |b| > 0 {
      var init := b[..|b| - 1];
      var last := b[|b| - 1];
      assert a + b == (a + init) + [last];
      assert UniqueKeys(a + init) by {
        forall i, j | 0 <= i < j < |a + init|
          ensures (a + init)[i].0 != (a + init)[j].0
        {
          assert (a + init)[i] == (a + b)[i] && (a + init)[j] == (a + b)[j];
        }
      }
      MergeDisjoint(a, init);
      assert last.0 !in Keys(a + init) by {
        forall i | 0 <= i < |a + init|
          ensures (a + init)[i].0 != last.0
        {
          assert (a + init)[i] == (a + b)[i] && (a + b)[|a + b| - 1] == last;
        }
      }
    }
  }

  /** Having no key in common is symmetric. */
  lemma NoSharedKeys<V>(a: OMap<V>, b: OMap<V>)
    requires forall j :: 0 <= j < |b| ==> b[j].0 !in Keys(a)
    ensures forall i :: 0 <= i < |a| ==> a[i].0 !in Keys(b)
  {
    forall i | 0 <= i < |a|
      ensures a[i].0 !in Keys(b)
    {
      assert Keys(a)[i] == a[i].0;
      assert forall j :: 0 <= j < |b| ==> Keys(b)[j] != a[i].0;
    }
  }

  /** Two hashes with no key in common make one when appended. */
  lemma DisjointConcat<V>(a: OMap<V>, b: OMap<V>)
    requires UniqueKeys(a) && UniqueKeys(b)
    requires forall j :: 0 <= j < |b| ==> b[j].0 !in Keys(a)
    ensures UniqueKeys(a + b)
  {
    forall i, j | 0 <= i < j < |a + b|
      ensures (a + b)[i].0 != (a + b)[j].0
    {
      if j < |a| {
        assert (a + b)[i] == a[i] && (a + b)[j] == a[j];
      } else if i >= |a| {
        assert (a + b)[i] == b[i - |a|] && (a + b)[j] == b[j - |a|];
      } else {
        assert (a + b)[i] == a[i] && (a + b)[j] == b[j - |a|];
        assert a[i].0 == Keys(a)[i];
      }
    }
  }

  /** `delete_if`: the entries of `m` whose key is not among `ks`, in order. */
  function DeleteKeys<V>(m: OMap<V>, ks: seq<string>): (r: OMap<V>)
    ensures |r| <= |m|
    ensures forall i :: 0 <= i < |r| ==> r[i] in m && r[i].0 !in ks
    ensures forall i :: 0 <= i < |m| && m[i].0 !in ks ==> m[i] in r
  {
    Filter(m, (e: (string, V)) => e.0 !in ks)
  }

  /** Property: deleting keys the hash does not have changes nothing. */
  lemma {:induction false} DeleteKeysAbsent<V>(m: OMap<V>, ks: seq<string>)
    requires forall i :: 0 <= i < |m| ==> m[i].0 !in ks
    ensures DeleteKeys(m, ks) == m
  {
    if |m| > 0 {
      DeleteKeysAbsent(m[1..], ks);
    }
  }
}
