// What the kernel's lists hold, as sequences: src/lib/list.c seen from outside.
module Lists {

  predicate NoDup<T(==)>(s: seq<T>) {
    forall i, j :: 0 <= i < j < |s| ==> s[i] != s[j]
  }

  // list_remove
  function Without<T(==)>(s: seq<T>, x: T): seq<T> {
    if s == [] then [] else if s[0] == x then s[1..] else [s[0]] + Without(s[1..], x)
  }

  lemma {:induction false} WithoutMembers<T>(s: seq<T>, x: T)
    requires NoDup(s)
    ensures NoDup(Without(s, x))
    ensures forall y :: y in Without(s, x) <==> y in s && y != x
    ensures |Without(s, x)| == if x in s then |s| - 1 else |s|
  {
    if s != [] {
      WithoutMembers(s[1..], x);
      assert s == [s[0]] + s[1..];
      if s[0] != x {
        assert s[0] !in s[1..];
      }
    }
  }

  lemma {:induction false} WithoutAt<T>(s: seq<T>, i: nat)
    requires NoDup(s) && i < |s|
    ensures Without(s, s[i]) == s[..i] + s[i + 1..]
  {
    if i > 0 {
      WithoutAt(s[1..], i - 1);
      assert s[..i] == [s[0]] + s[1..][..i - 1];
    }
  }

  lemma WithoutAbsent<T>(s: seq<T>, x: T)
    requires x !in s
    ensures Without(s, x) == s
  {}

  lemma PushNoDup<T>(s: seq<T>, x: T)
    requires NoDup(s) && x !in s
    ensures NoDup([x] + s) && NoDup(s + [x])
  {}

  // -------------------------------------------------------- list_insert_sort

  predicate Sorted<T>(s: seq<T>, key: T -> int) {
    forall i, j :: 0 <= i < j < |s| ==> key(s[i]) <= key(s[j])
  }

  lemma {:induction false} WithoutSubset<T>(s: seq<T>, x: T)
    ensures forall y :: y in Without(s, x) ==> y in s
  {
    if s != [] {
      WithoutSubset(s[1..], x);
      assert s == [s[0]] + s[1..];
    }
  }

  lemma SortedCons<T>(x: T, s: seq<T>, key: T -> int)
    requires Sorted(s, key) && forall y :: y in s ==> key(x) <= key(y)
    ensures Sorted([x] + s, key)
  {}

  lemma {:induction false} WithoutKeepsSorted<T>(s: seq<T>, x: T, key: T -> int)
    requires Sorted(s, key)
    ensures Sorted(Without(s, x), key)
  {
    if s != [] && s[0] != x {
      WithoutKeepsSorted(s[1..], x, key);
      WithoutSubset(s[1..], x);
      SortedCons(s[0], Without(s[1..], x), key);
    }
  }

  // How many nodes at the front are not greater than k: the new node goes behind them.
  function Rank<T>(s: seq<T>, key: T -> int, k: int): (r: nat)
    ensures r <= |s| && (r < |s| ==> key(s[r]) > k)
    ensures forall i :: 0 <= i < r ==> key(s[i]) <= k
  {
    if s == [] || key(s[0]) > k then 0 else 1 + Rank(s[1..], key, k)
  }

  function Inserted<T>(s: seq<T>, x: T, key: T -> int): seq<T> {
    var r := Rank(s, key, key(x));
    s[..r] + [x] + s[r..]
  }

  lemma InsertedSorted<T>(s: seq<T>, x: T, key: T -> int)
    requires Sorted(s, key)
    ensures Sorted(Inserted(s, x, key), key)
  {
    var r, t := Rank(s, key, key(x)), Inserted(s, x, key);
    assert forall i :: r <= i < |s| ==> key(s[i]) >= key(s[r]) > key(x);
    forall i, j | 0 <= i < j < |t| ensures key(t[i]) <= key(t[j]) {
      assert t[i] == if i < r then s[i] else if i == r then x else s[i - 1];
      assert t[j] == if j < r then s[j] else if j == r then x else s[j - 1];
    }
  }

  lemma InsertedMembers<T>(s: seq<T>, x: T, key: T -> int)
    ensures multiset(Inserted(s, x, key)) == multiset(s) + multiset{x}
    ensures forall y :: y in Inserted(s, x, key) <==> y in s || y == x
  {
    var r := Rank(s, key, key(x));
    assert s == s[..r] + s[r..];
  }

  lemma InsertedNoDup<T>(s: seq<T>, x: T, key: T -> int)
    requires NoDup(s) && x !in s
    ensures NoDup(Inserted(s, x, key))
  {}

  // -------------------------------------------------------------- the loops

  // list_search
  method Search<T(==)>(list: seq<T>, x: T) returns (found: bool)
    ensures found <==> x in list
  {
    var j := 0;
    while j < |list|
      invariant j <= |list| && x !in list[..j]
    {
      if list[j] == x {
        return true;
      }
      j := j + 1;
    }
    assert list[..j] == list;
    found := false;
  }

  // list_insert_sort
  method InsertSort<T>(list: seq<T>, x: T, key: T -> int) returns (r: seq<T>)
    ensures r == Inserted(list, x, key)
  {
    var i := 0;
    assert list[0..] == list;
    while i < |list| && key(list[i]) <= key(x)
      invariant i <= |list| && Rank(list, key, key(x)) == i + Rank(list[i..], key, key(x))
    {
      assert list[i..][1..] == list[i + 1..] && list[i..][0] == list[i];
      i := i + 1;
    }
    assert i < |list| ==> list[i..][0] == list[i];
    r := list[..i] + [x] + list[i..];
  }
}
