/** What `slices.SortFunc` with an integer key gives its callers. */
module Sorting {

  ghost predicate SortedBy<T>(s: seq<T>, key: T -> int) {
    forall i, j :: 0 <= i < j < |s| ==> key(s[i]) <= key(s[j])
  }

  lemma InsertAt<T>(sorted: seq<T>, j: nat, x: T, key: T -> int)
    requires SortedBy(sorted, key) && j <= |sorted|
    requires forall k :: 0 <= k < j ==> key(sorted[k]) <= key(x)
    requires forall k :: j <= k < |sorted| ==> key(x) <= key(sorted[k])
    ensures SortedBy(sorted[..j] + [x] + sorted[j..], key)
  {
    var longer := sorted[..j] + [x] + sorted[j..];
    forall a, b | 0 <= a < b < |longer| ensures key(longer[a]) <= key(longer[b]) {
      assert longer[a] == if a < j then sorted[a] else if a == j then x else sorted[a - 1];
      assert longer[b] == if b < j then sorted[b] else if b == j then x else sorted[b - 1];
    }
  }

  lemma InsertAdds<T>(s: seq<T>, j: nat, x: T)
    requires j <= |s|
    ensures multiset(s[..j] + [x] + s[j..]) == multiset(s) + multiset{x}
  {
    assert s == s[..j] + s[j..];
  }

  /** Elements with the same key are the same. */
  ghost predicate KeysIdentify<T>(s: seq<T>, key: T -> int) {
    forall x, y :: x in s && y in s && key(x) == key(y) ==> x == y
  }

  lemma FirstIsLeast<T>(s: seq<T>, key: T -> int, x: T)
    requires SortedBy(s, key) && x in s
    ensures key(s[0]) <= key(x)
  {
    var i :| 0 <= i < |s| && s[i] == x;
  }

  lemma SameFirst<T>(a: seq<T>, b: seq<T>, key: T -> int)
    requires SortedBy(a, key) && SortedBy(b, key) && multiset(a) == multiset(b) && KeysIdentify(a, key) && a != []
    ensures b != [] && a[0] == b[0]
  {
    assert |multiset(a)| == |multiset(b)|;
    assert a[0] in multiset(b) && b[0] in multiset(a);
    FirstIsLeast(b, key, a[0]);
    FirstIsLeast(a, key, b[0]);
  }

  lemma TailOf<T>(s: seq<T>)
    requires s != []
    ensures s == [s[0]] + s[1..] && multiset(s[1..]) == multiset(s) - multiset{s[0]}
    ensures forall x :: x in s[1..] ==> x in s
  {
    assert s == [s[0]] + s[1..];
  }

  lemma TailIsSorted<T>(s: seq<T>, key: T -> int)
    requires s != [] && SortedBy(s, key)
    ensures SortedBy(s[1..], key)
  {
  }

  /** With a key that identifies, there is only one order. */
  lemma {:induction false} SortedUnique<T>(a: seq<T>, b: seq<T>, key: T -> int)
    requires SortedBy(a, key) && SortedBy(b, key) && multiset(a) == multiset(b) && KeysIdentify(a, key)
    ensures a == b
    decreases |a|
  {
    if a == [] {
      assert |multiset(b)| == 0;
    } else {
      SameFirst(a, b, key);
      TailOf(a);
      TailOf(b);
      TailIsSorted(a, key);
      TailIsSorted(b, key);
      SortedUnique(a[1..], b[1..], key);
    }
  }

  lemma TwiceCounts<T>(s: seq<T>, i: nat, j: nat)
    requires i < j < |s| && s[i] == s[j]
    ensures multiset(s)[s[i]] >= 2
  {
    assert s == s[..j] + s[j..];
    assert s[..j][i] == s[j..][0] == s[i];
    assert s[i] in multiset(s[..j]) && s[i] in multiset(s[j..]);
  }

  /** After the last element that is not greater. */
  method Place<T>(sorted: seq<T>, x: T, key: T -> int) returns (j: nat)
    requires SortedBy(sorted, key)
    ensures j <= |sorted|
    ensures forall k :: 0 <= k < j ==> key(sorted[k]) <= key(x)
    ensures forall k :: j <= k < |sorted| ==> key(x) <= key(sorted[k])
  {
    j := |sorted|;
    while j > 0 && key(sorted[j - 1]) > key(x)
      invariant j <= |sorted|
      invariant forall k :: j <= k < |sorted| ==> key(x) <= key(sorted[k])
    {
      j := j - 1;
    }
  }

  /** `slices.SortFunc`: order and contents can be relied on, stability cannot. */
  method SortBy<T>(s: seq<T>, key: T -> int) returns (sorted: seq<T>)
    ensures SortedBy(sorted, key) && multiset(sorted) == multiset(s)
  {
    sorted := [];
    for i := 0 to |s|
      invariant SortedBy(sorted, key) && multiset(sorted) == multiset(s[..i])
    {
      var j := Place(sorted, s[i], key);
      assert s[..i + 1] == s[..i] + [s[i]];
      InsertAt(sorted, j, s[i], key);
      InsertAdds(sorted, j, s[i]);
      sorted := sorted[..j] + [s[i]] + sorted[j..];
    }
    assert s[..|s|] == s;
  }
}
