/**
 * The stable descending sort `v.sort_by(|a, b| key(b).cmp(&key(a)))` that
 * src/model.rs applies in place to a fixed task's messages (by
 * `created_at`) and to a feed's items (by `pub_date`).
 *
 * `SortDesc` is insertion sort written as a function: each element is put
 * after every earlier element whose key is at least its own, so equal keys
 * keep their input order. `SortInPlace` is the in-place algorithm, proved to
 * compute `SortDesc`.
 */
module StableSort {

  ghost predicate SortedDesc<T>(s: seq<T>, key: T -> int)
  {
    forall i, j :: 0 <= i < j < |s| ==> key(s[i]) >= key(s[j])
  }

  /** `s[k]` has the largest key of `s`, and no earlier element has that key. */
  ghost predicate IsFirstNewest<T>(s: seq<T>, key: T -> int, k: int)
  {
    && 0 <= k < |s|
    && (forall j :: 0 <= j < |s| ==> key(s[j]) <= key(s[k]))
    && (forall j :: 0 <= j < k ==> key(s[j]) < key(s[k]))
  }

  /** The index of the first element with the largest key. */
  function FirstNewestIndex<T>(s: seq<T>, key: T -> int): (k: nat)
    requires |s| > 0
    ensures IsFirstNewest(s, key, k)
  {
    if |s| == 1 then 0
    else
      var k := FirstNewestIndex(s[..|s| - 1], key);
      if key(s[|s| - 1]) > key(s[k]) then |s| - 1 else k
  }

  /** At most one index is the first newest. */
  lemma FirstNewestUnique<T>(s: seq<T>, key: T -> int, k1: int, k2: int)
    requires IsFirstNewest(s, key, k1) && IsFirstNewest(s, key, k2)
    ensures k1 == k2
  {
    assert key(s[k1]) <= key(s[k2]) && key(s[k2]) <= key(s[k1]);
  }

  /** Puts `x` right after the last element of `s` whose key is at least `key(x)`. */
  function Insert<T>(s: seq<T>, x: T, key: T -> int): seq<T>
  {
    if |s| == 0 || key(s[|s| - 1]) >= key(x) then s + [x]
    else Insert(s[..|s| - 1], x, key) + [s[|s| - 1]]
  }

  function SortDesc<T>(s: seq<T>, key: T -> int): seq<T>
  {
    if |s| == 0 then [] else Insert(SortDesc(s[..|s| - 1], key), s[|s| - 1], key)
  }

  lemma {:induction false} InsertPermutes<T>(s: seq<T>, x: T, key: T -> int)
    ensures multiset(Insert(s, x, key)) == multiset(s) + multiset{x}
    ensures |Insert(s, x, key)| == |s| + 1
  {
    if |s| == 0 || key(s[|s| - 1]) >= key(x) {
    } else {
      var init, last := s[..|s| - 1], s[|s| - 1];
      InsertPermutes(init, x, key);
      assert s == init + [last];
    }
  }

  lemma {:induction false} InsertKeepsSorted<T>(s: seq<T>, x: T, key: T -> int)
    requires SortedDesc(s, key)
    ensures SortedDesc(Insert(s, x, key), key)
  {
    if |s| == 0 || key(s[|s| - 1]) >= key(x) {
    } else {
      var init, last := s[..|s| - 1], s[|s| - 1];
      InsertKeepsSorted(init, x, key);
      InsertPermutes(init, x, key);
      var r := Insert(init, x, key);
      forall e | e in multiset(r) ensures key(e) >= key(last) {
        assert e in multiset(init) + multiset{x};
        if e in multiset(init) {
          var i :| 0 <= i < |init| && init[i] == e;
          assert s[i] == e;
        }
      }
      forall i | 0 <= i < |r| ensures key(r[i]) >= key(last) {
        assert r[i] in multiset(r);
      }
    }
  }

  /** The head of `Insert(s, x)`: `x` if it beats the current head, else that head. */
  lemma {:induction false} InsertHead<T>(s: seq<T>, x: T, key: T -> int)
    requires SortedDesc(s, key) && |s| > 0
    ensures key(x) > key(s[0]) ==> Insert(s, x, key)[0] == x
    ensures key(x) <= key(s[0]) ==> Insert(s, x, key)[0] == s[0]
  {
    if key(s[|s| - 1]) >= key(x) {
    } else if |s| == 1 {
    } else {
      var init := s[..|s| - 1];
      InsertHead(init, x, key);
      InsertPermutes(init, x, key);
    }
  }

  lemma {:induction false} SortPermutes<T>(s: seq<T>, key: T -> int)
    ensures multiset(SortDesc(s, key)) == multiset(s)
    ensures |SortDesc(s, key)| == |s|
  {
    if |s| > 0 {
      var init, last := s[..|s| - 1], s[|s| - 1];
      SortPermutes(init, key);
      InsertPermutes(SortDesc(init, key), last, key);
      assert s == init + [last];
    }
  }

  lemma {:induction false} SortIsSorted<T>(s: seq<T>, key: T -> int)
    ensures SortedDesc(SortDesc(s, key), key)
  {
    if |s| > 0 {
      SortIsSorted(s[..|s| - 1], key);
      InsertKeepsSorted(SortDesc(s[..|s| - 1], key), s[|s| - 1], key);
    }
  }

  /**
   * After the sort, the first element is the newest one, and among equally
   * new ones it is the one that came first in the input.
   */
  lemma {:induction false} SortHead<T>(s: seq<T>, key: T -> int)
    requires |s| > 0
    ensures |SortDesc(s, key)| == |s|
    ensures SortDesc(s, key)[0] == s[FirstNewestIndex(s, key)]
  {
    SortPermutes(s, key);
    if |s| > 1 {
      var init, last := s[..|s| - 1], s[|s| - 1];
      SortHead(init, key);
      SortIsSorted(init, key);
      InsertHead(SortDesc(init, key), last, key);
    }
  }

  /** Every element of the sorted sequence comes from the input. */
  lemma SortedMember<T>(s: seq<T>, key: T -> int, i: int)
    requires 0 <= i < |SortDesc(s, key)|
    ensures SortDesc(s, key)[i] in s
  {
    SortPermutes(s, key);
    assert SortDesc(s, key)[i] in multiset(SortDesc(s, key));
  }

  /** The in-place insertion sort; the rest of the model only uses its contract. */
  method SortInPlace<T>(a: array<T>, key: T -> int)
    modifies a
    ensures a[..] == SortDesc(old(a[..]), key)
  {
    var i := 0;
    while i < a.Length
      invariant 0 <= i <= a.Length
      invariant a[..i] == SortDesc(old(a[..])[..i], key)
      invariant a[i..] == old(a[..])[i..]
    {
      ghost var before := a[..];
      InsertAt(a, i, key);
      assert old(a[..])[..i + 1][..i] == old(a[..])[..i];
      assert before[i] == old(a[..])[i];
      assert a[i + 1..] == before[i + 1..];
      i := i + 1;
    }
    assert old(a[..])[..a.Length] == old(a[..]);
  }

  /** One step of insertion sort: moves `a[i]` into the prefix `a[..i]`. */
  method InsertAt<T>(a: array<T>, i: nat, key: T -> int)
    requires i < a.Length
    modifies a
    ensures a[..i + 1] == Insert(old(a[..i]), old(a[i]), key)
    ensures a[i + 1..] == old(a[i + 1..])
  {
    ghost var p := a[..i];
    var x := a[i];
    var j := i;
    while j > 0 && key(a[j - 1]) < key(x)
      invariant 0 <= j <= i
      invariant forall k :: 0 <= k < j ==> a[k] == p[k]
      invariant forall k :: j < k <= i ==> a[k] == p[k - 1]
      invariant forall k :: i < k < a.Length ==> a[k] == old(a[k])
      invariant forall k :: j <= k < i ==> key(p[k]) < key(x)
    {
      a[j] := a[j - 1];
      j := j - 1;
    }
    a[j] := x;
    InsertAtPosition(p, x, key, j);
    ghost var r := p[..j] + [x] + p[j..];
    assert forall k :: 0 <= k <= i ==> a[k] == r[k];
    assert a[..i + 1] == r;
  }

  /**
   * `Insert` puts `x` right after the last element whose key is at least
   * `key(x)`: at `j`, when every later key is smaller.
   */
  lemma {:induction false} InsertAtPosition<T>(p: seq<T>, x: T, key: T -> int, j: nat)
    requires j <= |p| && (j == 0 || key(p[j - 1]) >= key(x))
    requires forall k :: j <= k < |p| ==> key(p[k]) < key(x)
    ensures Insert(p, x, key) == p[..j] + [x] + p[j..]
    decreases |p|
  {
    if |p| == j {
      assert p[..j] == p && p[j..] == [];
    } else {
      var init, last := p[..|p| - 1], p[|p| - 1];
      InsertAtPosition(init, x, key, j);
      assert init[..j] == p[..j];
      assert init[j..] + [last] == p[j..];
    }
  }
}
