/** Lists that are searched by a key, with new records put at the front. */
module Tables {
  import opened Lists

  /** The position of the first record with a key, at or after a position. */
  function Find<T, K(==)>(s: seq<T>, key: T -> K, k: K, i: nat := 0): (r: Option<nat>)
    requires i <= |s|
    ensures r.Some? ==> i <= r.value < |s| && key(s[r.value]) == k
    ensures r.None? ==> forall j :: i <= j < |s| ==> key(s[j]) != k
    decreases |s| - i
  {
    if i == |s| then None
    else if key(s[i]) == k then Some(i)
    else Find(s, key, k, i + 1)
  }

  function Get<T, K(==)>(s: seq<T>, key: T -> K, k: K): Option<T> {
    match Find(s, key, k)
    case None => None
    case Some(i) => Some(s[i])
  }

  /** Replaces the record with the same key, or puts a new one at the front. */
  function Put<T, K(==)>(s: seq<T>, key: T -> K, x: T): seq<T> {
    match Find(s, key, key(x))
    case None => [x] + s
    case Some(i) => s[i := x]
  }

  /** Unlinks the first record with a key, if there is one. */
  function Cut<T, K(==)>(s: seq<T>, key: T -> K, k: K): seq<T> {
    match Find(s, key, k)
    case None => s
    case Some(i) => RemoveAt(s, i)
  }

  lemma GetFinds<T, K>(s: seq<T>, key: T -> K, k: K)
    ensures Get(s, key, k).Some? ==> Get(s, key, k).value in s && key(Get(s, key, k).value) == k
    ensures Get(s, key, k).None? ==> forall x :: x in s ==> key(x) != k
  {
  }

  /** In a table without repeated keys, a record is what its key finds. */
  lemma GetRecord<T, K>(s: seq<T>, key: T -> K, x: T)
    requires Unique(s, key) && x in s
    ensures Get(s, key, key(x)) == Some(x)
  {
    var i :| 0 <= i < |s| && s[i] == x;
    assert Find(s, key, key(x)) == Some(i);
  }

  lemma GetPut<T, K>(s: seq<T>, key: T -> K, x: T, k: K)
    requires Unique(s, key)
    ensures Unique(Put(s, key, x), key)
    ensures Get(Put(s, key, x), key, k) == if k == key(x) then Some(x) else Get(s, key, k)
  {
    var t := Put(s, key, x);
    assert x in t by {
      var i := Find(s, key, key(x));
      assert t[if i.Some? then i.value else 0] == x;
    }
    assert Unique(t, key);
    if k == key(x) {
      GetRecord(t, key, x);
    } else if Get(s, key, k).Some? {
      var y := Get(s, key, k).value;
      assert y in t by {
        var i, j := Find(s, key, key(x)), Find(s, key, k).value;
        assert t[if i.Some? then j else j + 1] == y;
      }
      GetRecord(t, key, y);
    }
  }

  lemma GetCut<T, K>(s: seq<T>, key: T -> K, c: K, k: K)
    requires Unique(s, key)
    ensures Unique(Cut(s, key, c), key)
    ensures Get(Cut(s, key, c), key, k) == if k == c then None else Get(s, key, k)
  {
    var i := Find(s, key, c);
    if i.Some? {
      var t := Cut(s, key, c);
      assert forall j :: 0 <= j < |t| ==> t[j] == s[if j < i.value then j else j + 1];
      if k != c && Get(s, key, k).Some? {
        var j := Find(s, key, k).value;
        assert t[if j < i.value then j else j - 1] == s[j];
        GetRecord(t, key, s[j]);
      } else if k == c {
        assert forall j :: 0 <= j < |t| ==> key(t[j]) != c;
      }
    }
  }

  lemma GetFilter<T, K>(s: seq<T>, key: T -> K, keep: T -> bool, k: K)
    requires Unique(s, key)
    ensures Unique(Filter(s, keep), key)
    ensures Get(Filter(s, keep), key, k)
         == if Get(s, key, k).Some? && keep(Get(s, key, k).value) then Get(s, key, k) else None
  {
    UniqueFilter(s, key, keep);
    GetFinds(s, key, k);
    GetFinds(Filter(s, keep), key, k);
    var found := Get(Filter(s, keep), key, k);
    if found.Some? {
      GetRecord(s, key, found.value);
    }
    if Get(s, key, k).Some? && keep(Get(s, key, k).value) {
      GetRecord(Filter(s, keep), key, Get(s, key, k).value);
    }
  }

  /** Unlinks the record of each key in turn. */
  function CutAll<T, K(==)>(s: seq<T>, key: T -> K, keys: seq<K>): seq<T> {
    if keys == [] then s
    else Cut(CutAll(s, key, keys[..|keys| - 1]), key, keys[|keys| - 1])
  }

  lemma CutAllSnoc<T, K>(s: seq<T>, key: T -> K, keys: seq<K>, k: K)
    ensures CutAll(s, key, keys + [k]) == Cut(CutAll(s, key, keys), key, k)
  {
    assert (keys + [k])[..|keys|] == keys;
  }

  lemma {:induction false} GetCutAll<T, K>(s: seq<T>, key: T -> K, keys: seq<K>, k: K)
    requires Unique(s, key)
    ensures Unique(CutAll(s, key, keys), key)
    ensures Get(CutAll(s, key, keys), key, k) == if k in keys then None else Get(s, key, k)
  {
    if keys != [] {
      var front, last := keys[..|keys| - 1], keys[|keys| - 1];
      GetCutAll(s, key, front, k);
      GetCut(CutAll(s, key, front), key, last, k);
      assert keys == front + [last];
    }
  }
}
