/** Python's `dict` and `OrderedDict` with string keys: entries in insertion order, each key at
    most once. Assigning to a present key replaces its value where it stands; assigning to a new
    key appends it; `del` removes the entry. */
module PyDict {
  import opened Wrappers

  datatype Entry<V> = Entry(key: string, value: V)

  function KeySet<V>(d: seq<Entry<V>>): set<string> {
    if d == [] then {} else {d[0].key} + KeySet(d[1..])
  }

  /** The keys, in order. */
  function Keys<V>(d: seq<Entry<V>>): (ks: seq<string>)
    ensures |ks| == |d|
  {
    if d == [] then [] else [d[0].key] + Keys(d[1..])
  }

  /** No key appears twice. */
  predicate Distinct<V>(d: seq<Entry<V>>) {
    d == [] || (d[0].key !in KeySet(d[1..]) && Distinct(d[1..]))
  }

  /** `d.get(k)`. */
  function Get<V>(d: seq<Entry<V>>, k: string): Option<V> {
    if d == [] then None else if d[0].key == k then Some(d[0].value) else Get(d[1..], k)
  }

  /** `d[k] = v`. */
  function Assign<V>(d: seq<Entry<V>>, k: string, v: V): seq<Entry<V>> {
    if d == [] then [Entry(k, v)]
    else if d[0].key == k then [Entry(k, v)] + d[1..]
    else [d[0]] + Assign(d[1..], k, v)
  }

  /** `del d[k]`, for a key that is present. */
  function Delete<V>(d: seq<Entry<V>>, k: string): seq<Entry<V>> {
    if d == [] then [] else if d[0].key == k then Delete(d[1..], k) else [d[0]] + Delete(d[1..], k)
  }

  lemma {:induction false} KeySetMembers<V>(d: seq<Entry<V>>)
    ensures forall e :: e in d ==> e.key in KeySet(d)
    ensures forall k :: k in KeySet(d) ==> Get(d, k).Some? && Entry(k, Get(d, k).value) in d
  {
    if d != [] {
      KeySetMembers(d[1..]);
    }
  }

  lemma {:induction false} KeysMembers<V>(d: seq<Entry<V>>)
    ensures forall k :: k in Keys(d) <==> k in KeySet(d)
  {
    if d != [] {
      KeysMembers(d[1..]);
    }
  }

  /** A key is present exactly when `get` finds it. */
  lemma {:induction false} GetFacts<V>(d: seq<Entry<V>>, k: string)
    ensures Get(d, k).Some? <==> k in KeySet(d)
  {
    if d != [] && d[0].key != k {
      GetFacts(d[1..], k);
    }
  }

  /** Assignment adds the key, maps it to the new value and leaves every other key's value. */
  lemma {:induction false} AssignFacts<V>(d: seq<Entry<V>>, k: string, v: V)
    ensures KeySet(Assign(d, k, v)) == KeySet(d) + {k}
    ensures forall j :: Get(Assign(d, k, v), j) == if j == k then Some(v) else Get(d, j)
  {
    if d != [] && d[0].key != k {
      AssignFacts(d[1..], k, v);
    }
  }

  /** Assignment keeps the keys distinct. */
  lemma {:induction false} AssignDistinct<V>(d: seq<Entry<V>>, k: string, v: V)
    requires Distinct(d)
    ensures Distinct(Assign(d, k, v))
  {
    if d != [] && d[0].key != k {
      AssignDistinct(d[1..], k, v);
      AssignFacts(d[1..], k, v);
    }
  }

  /** A new key goes last; a present key keeps its place, so the key order is unchanged. */
  lemma {:induction false} AssignPosition<V>(d: seq<Entry<V>>, k: string, v: V)
    ensures k !in KeySet(d) ==> Assign(d, k, v) == d + [Entry(k, v)]
    ensures k in KeySet(d) ==> Keys(Assign(d, k, v)) == Keys(d)
  {
    if d != [] && d[0].key != k {
      AssignPosition(d[1..], k, v);
      assert d == [d[0]] + d[1..];
    }
  }

  /** Deletion removes the key and leaves every other key's value. */
  lemma {:induction false} DeleteFacts<V>(d: seq<Entry<V>>, k: string)
    ensures KeySet(Delete(d, k)) == KeySet(d) - {k}
    ensures forall j :: Get(Delete(d, k), j) == if j == k then None else Get(d, j)
    ensures forall e :: e in Delete(d, k) <==> e in d && e.key != k
  {
    if d != [] {
      DeleteFacts(d[1..], k);
    }
  }

  lemma {:induction false} DeleteDistinct<V>(d: seq<Entry<V>>, k: string)
    requires Distinct(d)
    ensures Distinct(Delete(d, k))
  {
    if d != [] {
      DeleteDistinct(d[1..], k);
      DeleteFacts(d[1..], k);
    }
  }

  /** Deleting an absent key changes nothing. */
  lemma {:induction false} DeleteAbsent<V>(d: seq<Entry<V>>, k: string)
    requires k !in KeySet(d)
    ensures Delete(d, k) == d
  {
    if d != [] {
      DeleteAbsent(d[1..], k);
      assert d == [d[0]] + d[1..];
    }
  }

  /** Deleting the first key of a dictionary without duplicates leaves the rest. */
  lemma DeleteFirst<V>(d: seq<Entry<V>>)
    requires d != [] && Distinct(d)
    ensures Delete(d, d[0].key) == d[1..]
  {
    DeleteAbsent(d[1..], d[0].key);
  }

  /** Two dictionaries with the same key set stay so under the same assignment or deletion. */
  lemma SameKeysAssign<V, W>(a: seq<Entry<V>>, b: seq<Entry<W>>, k: string, v: V, w: W)
    requires KeySet(a) == KeySet(b)
    ensures KeySet(Assign(a, k, v)) == KeySet(Assign(b, k, w))
  {
    AssignFacts(a, k, v);
    AssignFacts(b, k, w);
  }

  lemma SameKeysDelete<V, W>(a: seq<Entry<V>>, b: seq<Entry<W>>, k: string)
    requires KeySet(a) == KeySet(b)
    ensures KeySet(Delete(a, k)) == KeySet(Delete(b, k))
  {
    DeleteFacts(a, k);
    DeleteFacts(b, k);
  }

  /** No two positions share a key. */
  lemma {:induction false} DistinctIndices<V>(d: seq<Entry<V>>)
    ensures Distinct(d) <==> forall i, j :: 0 <= i < j < |d| ==> d[i].key != d[j].key
  {
    if d != [] {
      var t := d[1..];
      DistinctIndices(t);
      KeySetMembers(t);
      if d[0].key in KeySet(t) {
        var e := Entry(d[0].key, Get(t, d[0].key).value);
        assert e in t;
        var j :| 0 <= j < |t| && t[j] == e;
        assert d[j + 1].key == d[0].key;
      }
      if Distinct(d) {
        forall i, j | 0 <= i < j < |d| ensures d[i].key != d[j].key {
          if i == 0 {
            assert d[j] in t;
          } else {
            assert d[i] == t[i - 1] && d[j] == t[j - 1];
          }
        }
      }
      if forall i, j :: 0 <= i < j < |d| ==> d[i].key != d[j].key {
        forall i, j | 0 <= i < j < |t| ensures t[i].key != t[j].key {
          assert t[i] == d[i + 1] && t[j] == d[j + 1];
        }
      }
    }
  }

  /** Two dictionaries holding the same entries have the same keys. */
  lemma SameEntriesSameKeys<V>(a: seq<Entry<V>>, b: seq<Entry<V>>)
    requires forall e :: e in a <==> e in b
    ensures KeySet(a) == KeySet(b)
  {
    KeySetMembers(a);
    KeySetMembers(b);
  }

  /** Distinctness and the key set depend on the key order alone. */
  lemma {:induction false} SameKeyOrder<V, W>(a: seq<Entry<V>>, b: seq<Entry<W>>)
    requires Keys(a) == Keys(b)
    ensures KeySet(a) == KeySet(b) && (Distinct(a) <==> Distinct(b))
  {
    if a != [] {
      assert a[0].key == Keys(a)[0] == Keys(b)[0] == b[0].key;
      assert Keys(a[1..]) == Keys(a)[1..] == Keys(b)[1..] == Keys(b[1..]);
      SameKeyOrder(a[1..], b[1..]);
    }
  }

  /** One key's value after a deletion. */
  lemma GetDelete<V>(d: seq<Entry<V>>, k: string, j: string)
    ensures Get(Delete(d, k), j) == if j == k then None else Get(d, j)
  {
    DeleteFacts(d, k);
  }

  lemma KeySetDelete<V>(d: seq<Entry<V>>, k: string)
    ensures KeySet(Delete(d, k)) == KeySet(d) - {k}
  {
    DeleteFacts(d, k);
  }

  /** One key's value after an assignment. */
  lemma GetAssign<V>(d: seq<Entry<V>>, k: string, v: V, j: string)
    ensures Get(Assign(d, k, v), j) == if j == k then Some(v) else Get(d, j)
  {
    AssignFacts(d, k, v);
  }

  lemma {:induction false} KeysIndex<V>(d: seq<Entry<V>>, i: nat)
    requires i < |d|
    ensures Keys(d)[i] == d[i].key
  {
    if i > 0 {
      KeysIndex(d[1..], i - 1);
    }
  }

  /** In a dictionary without duplicates, no key occurs earlier in the key order than its place. */
  lemma FirstOccurrence<V>(d: seq<Entry<V>>, i: nat)
    requires Distinct(d) && i < |d|
    ensures Keys(d)[i] !in Keys(d)[..i]
  {
    DistinctIndices(d);
    KeysIndex(d, i);
    if Keys(d)[i] in Keys(d)[..i] {
      var j :| 0 <= j < i && Keys(d)[..i][j] == Keys(d)[i];
      KeysIndex(d, j);
    }
  }

  lemma {:induction false} KeysAppend<V>(a: seq<Entry<V>>, b: seq<Entry<V>>)
    ensures Keys(a + b) == Keys(a) + Keys(b)
  {
    if a == [] {
      assert a + b == b;
    } else {
      KeysAppend(a[1..], b);
      assert (a + b)[1..] == a[1..] + b && (a + b)[0] == a[0];
      assert Keys(a + b) == [a[0].key] + Keys(a[1..] + b);
    }
  }

  /** A present key has a place in the key order. */
  lemma {:induction false} KeyIndex<V>(d: seq<Entry<V>>, k: string) returns (i: nat)
    requires k in KeySet(d)
    ensures i < |d| && Keys(d)[i] == k
  {
    if d[0].key == k {
      i := 0;
    } else {
      var j := KeyIndex(d[1..], k);
      i := j + 1;
    }
  }

  /** In a dictionary without duplicates, a key is new to the entries before its own. */
  lemma {:induction false} FreshAfterPrefix<V>(d: seq<Entry<V>>, i: nat)
    requires Distinct(d) && i < |d|
    ensures d[i].key !in KeySet(d[..i])
  {
    if i > 0 {
      var t := d[1..];
      FreshAfterPrefix(t, i - 1);
      KeySetMembers(t);
      assert d[i] == t[i - 1] && t[i - 1] in t;
      assert d[..i] == [d[0]] + t[..i - 1];
      assert KeySet(d[..i]) == {d[0].key} + KeySet(t[..i - 1]);
    }
  }
}
