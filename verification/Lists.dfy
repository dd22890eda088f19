/** What the shim's cursor loops compute: unlinking every list element that fails a test. */
module Lists {

  datatype Option<+T> = None | Some(value: T)

  lemma ConcatAssociative<T>(a: seq<T>, b: seq<T>, c: seq<T>)
    ensures (a + b) + c == a + (b + c)
  {
  }

  /** The elements that pass a test, in order. */
  function Kept<T>(s: seq<T>, keep: T -> bool): seq<T> {
    if s == [] then []
    else if keep(s[0]) then [s[0]] + Kept(s[1..], keep)
    else Kept(s[1..], keep)
  }

  lemma {:induction false} KeptMembers<T>(s: seq<T>, keep: T -> bool)
    ensures |Kept(s, keep)| <= |s|
    ensures forall x :: x in Kept(s, keep) ==> x in s && keep(x)
    ensures forall x :: x in s && keep(x) ==> x in Kept(s, keep)
  {
    if s != [] {
      KeptMembers(s[1..], keep);
      assert forall x :: x in s <==> x == s[0] || x in s[1..];
    }
  }

  lemma {:induction false} KeptConcat<T>(s: seq<T>, t: seq<T>, keep: T -> bool)
    ensures Kept(s + t, keep) == Kept(s, keep) + Kept(t, keep)
  {
    if s == [] {
      assert s + t == t;
    } else {
      KeptConcat(s[1..], t, keep);
      assert (s + t)[1..] == s[1..] + t;
      if keep(s[0]) {
        ConcatAssociative([s[0]], Kept(s[1..], keep), Kept(t, keep));
      }
    }
  }

  lemma {:induction false} KeptAll<T>(s: seq<T>, keep: T -> bool)
    requires forall i :: 0 <= i < |s| ==> keep(s[i])
    ensures Kept(s, keep) == s
  {
    if s != [] {
      KeptAll(s[1..], keep);
    }
  }

  lemma {:induction false} KeptNone<T>(s: seq<T>, keep: T -> bool)
    requires forall i :: 0 <= i < |s| ==> !keep(s[i])
    ensures Kept(s, keep) == []
  {
    if s != [] {
      KeptNone(s[1..], keep);
    }
  }

  /** What unlinking every element that fails the test leaves of a list. */
  function Filter<T>(s: seq<T>, keep: T -> bool): (r: seq<T>)
    ensures |r| <= |s|
    ensures forall x :: x in r ==> x in s && keep(x)
    ensures forall x :: x in s && keep(x) ==> x in r
  {
    KeptMembers(s, keep);
    Kept(s, keep)
  }

  lemma FilterAll<T>(s: seq<T>, keep: T -> bool)
    requires forall x :: x in s ==> keep(x)
    ensures Filter(s, keep) == s
  {
    KeptAll(s, keep);
  }

  lemma FilterNone<T>(s: seq<T>, keep: T -> bool)
    requires forall x :: x in s ==> !keep(x)
    ensures Filter(s, keep) == []
  {
    KeptNone(s, keep);
  }

  /** No two elements share a key. */
  predicate Unique<T, K(==)>(s: seq<T>, key: T -> K) {
    forall i, j :: 0 <= i < j < |s| ==> key(s[i]) != key(s[j])
  }

  lemma UniqueCons<T, K>(x: T, s: seq<T>, key: T -> K)
    requires Unique(s, key)
    requires forall y :: y in s ==> key(y) != key(x)
    ensures Unique([x] + s, key)
  {
  }

  lemma {:induction false} UniqueKept<T, K>(s: seq<T>, key: T -> K, keep: T -> bool)
    requires Unique(s, key)
    ensures Unique(Kept(s, keep), key)
  {
    if s != [] {
      UniqueKept(s[1..], key, keep);
      KeptMembers(s[1..], keep);
      forall x | x in Kept(s[1..], keep)
        ensures key(x) != key(s[0])
      {
        var i :| 0 <= i < |s[1..]| && s[1..][i] == x;
        assert s[i + 1] == x;
      }
      UniqueCons(s[0], Kept(s[1..], keep), key);
    }
  }

  lemma UniqueFilter<T, K>(s: seq<T>, key: T -> K, keep: T -> bool)
    requires Unique(s, key)
    ensures Unique(Filter(s, keep), key)
  {
    UniqueKept(s, key, keep);
  }

  lemma {:induction false} KeptPartition<T>(s: seq<T>, keep: T -> bool)
    ensures multiset(s) == multiset(Kept(s, keep)) + multiset(Kept(s, Not(keep)))
    ensures |s| == |Kept(s, keep)| + |Kept(s, Not(keep))|
  {
    if s != [] {
      KeptPartition(s[1..], keep);
      MultisetCons(s[0], s[1..]);
      assert s == [s[0]] + s[1..];
      if keep(s[0]) {
        MultisetCons(s[0], Kept(s[1..], keep));
      } else {
        MultisetCons(s[0], Kept(s[1..], Not(keep)));
      }
    }
  }

  /** Every element is kept or dropped, and none is lost or invented. */
  lemma FilterPartition<T>(s: seq<T>, keep: T -> bool)
    ensures multiset(s) == multiset(Filter(s, keep)) + multiset(Filter(s, Not(keep)))
    ensures |s| == |Filter(s, keep)| + |Filter(s, Not(keep))|
  {
    KeptPartition(s, keep);
  }

  lemma MultisetCons<T>(x: T, s: seq<T>)
    ensures multiset([x] + s) == multiset{x} + multiset(s)
  {
  }

  lemma MultisetSnoc<T>(s: seq<T>, x: T)
    ensures multiset(s + [x]) == multiset(s) + multiset{x}
  {
  }

  /** Unlinks one element. */
  function RemoveAt<T>(s: seq<T>, i: nat): seq<T>
    requires i < |s|
  {
    s[..i] + s[i + 1..]
  }

  lemma RemoveAtUnique<T, K>(s: seq<T>, i: nat, key: T -> K)
    requires i < |s| && Unique(s, key)
    ensures Unique(RemoveAt(s, i), key)
    ensures forall x :: x in RemoveAt(s, i) ==> x in s && x != s[i]
    ensures forall x :: x in s && x != s[i] ==> x in RemoveAt(s, i)
  {
    var r := RemoveAt(s, i);
    assert forall k :: 0 <= k < |r| ==> r[k] == s[if k < i then k else k + 1];
    forall x | x in s && x != s[i]
      ensures x in r
    {
      var k :| 0 <= k < |s| && s[k] == x;
      assert r[if k < i then k else k - 1] == x;
    }
  }

  /** A test that fails for one element only unlinks just that one. */
  lemma FilterDropsOne<T>(s: seq<T>, i: nat, keep: T -> bool)
    requires i < |s| && !keep(s[i])
    requires forall k :: 0 <= k < |s| && k != i ==> keep(s[k])
    ensures Filter(s, keep) == RemoveAt(s, i)
  {
    var front, back := s[..i], s[i + 1..];
    assert s == front + ([s[i]] + back);
    KeptConcat(front, [s[i]] + back, keep);
    assert ([s[i]] + back)[1..] == back;
    KeptAll(front, keep);
    KeptAll(back, keep);
  }

  /** A cursor walking a list and unlinking what fails the test. */
  function RemoveLoop<T>(list: seq<T>, i: nat, keep: T -> bool): seq<T>
    requires i <= |list|
    decreases |list| - i
  {
    if i == |list| then list
    else if keep(list[i]) then RemoveLoop(list, i + 1, keep)
    else RemoveLoop(RemoveAt(list, i), i, keep)
  }

  /** One element of a cursor walk: it stays in front of the cursor, or it is gone. */
  lemma CursorStep<T>(list: seq<T>, i: nat)
    requires i < |list|
    ensures list[i..] == [list[i]] + list[i + 1..] && list[..i + 1] == list[..i] + [list[i]]
    ensures RemoveAt(list, i)[..i] == list[..i] && RemoveAt(list, i)[i..] == list[i + 1..]
  {
  }

  lemma {:induction false} RemoveLoopKeeps<T>(list: seq<T>, i: nat, keep: T -> bool)
    requires i <= |list|
    ensures RemoveLoop(list, i, keep) == list[..i] + Kept(list[i..], keep)
    decreases |list| - i
  {
    if i < |list| {
      CursorStep(list, i);
      if keep(list[i]) {
        RemoveLoopKeeps(list, i + 1, keep);
        ConcatAssociative(list[..i], [list[i]], Kept(list[i + 1..], keep));
      } else {
        RemoveLoopKeeps(RemoveAt(list, i), i, keep);
      }
    }
  }

  lemma RemoveLoopIsFilter<T>(list: seq<T>, keep: T -> bool)
    ensures RemoveLoop(list, 0, keep) == Filter(list, keep)
  {
    RemoveLoopKeeps(list, 0, keep);
    assert list[..0] == [] && list[0..] == list;
  }

  function Not<T>(test: T -> bool): T -> bool {
    (x: T) => !test(x)
  }

  /** The same walk, collecting what it unlinks. */
  function SplitLoop<T>(list: seq<T>, gone: seq<T>, i: nat, keep: T -> bool): (seq<T>, seq<T>)
    requires i <= |list|
    decreases |list| - i
  {
    if i == |list| then (list, gone)
    else if keep(list[i]) then SplitLoop(list, gone, i + 1, keep)
    else SplitLoop(RemoveAt(list, i), gone + [list[i]], i, keep)
  }

  lemma {:induction false} SplitLoopKeeps<T>(list: seq<T>, gone: seq<T>, i: nat, keep: T -> bool)
    requires i <= |list|
    ensures SplitLoop(list, gone, i, keep).0 == list[..i] + Kept(list[i..], keep)
    ensures SplitLoop(list, gone, i, keep).1 == gone + Kept(list[i..], Not(keep))
    decreases |list| - i
  {
    if i < |list| {
      CursorStep(list, i);
      if keep(list[i]) {
        SplitLoopKeeps(list, gone, i + 1, keep);
        ConcatAssociative(list[..i], [list[i]], Kept(list[i + 1..], keep));
      } else {
        SplitLoopKeeps(RemoveAt(list, i), gone + [list[i]], i, keep);
        ConcatAssociative(gone, [list[i]], Kept(list[i + 1..], Not(keep)));
      }
    }
  }

  lemma SplitLoopIsFilter<T>(list: seq<T>, keep: T -> bool)
    ensures SplitLoop(list, [], 0, keep) == (Filter(list, keep), Filter(list, Not(keep)))
  {
    SplitLoopKeeps(list, [], 0, keep);
    assert list[..0] == [] && list[0..] == list;
    assert [] + Kept(list, keep) == Kept(list, keep) && [] + Kept(list, Not(keep)) == Kept(list, Not(keep));
  }
}
