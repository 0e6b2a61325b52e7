/** What several modules share. */
module Basics {

  datatype Option<+T> = None | Some(value: T)

  /** A threshold of zero or less acts like one. */
  function AtLeastOne(n: int): nat {
    if n < 1 then 1 else n
  }

  /** `t` is what is left of `s` at the positions `at`, in order. */
  ghost predicate PicksAt<T>(s: seq<T>, t: seq<T>, at: seq<nat>) {
    && |at| == |t|
    && (forall k :: 0 <= k < |at| ==> at[k] < |s| && t[k] == s[at[k]])
    && (forall i, j :: 0 <= i < j < |at| ==> at[i] < at[j])
  }

  /** `t` is `s` without its element `i`, and in the same order. */
  ghost predicate OneLess<T>(s: seq<T>, t: seq<T>, i: nat) {
    && i < |s| && |t| == |s| - 1
    && (forall k :: 0 <= k < i ==> t[k] == s[k])
    && (forall k :: i <= k < |t| ==> t[k] == s[k + 1])
  }

  lemma OneLessCounts<T>(s: seq<T>, t: seq<T>, i: nat, x: T)
    requires OneLess(s, t, i)
    ensures multiset(s)[x] == multiset(t)[x] + if x == s[i] then 1 else 0
  {
    assert s == s[..i] + [s[i]] + s[i + 1..];
    assert t == s[..i] + s[i + 1..];
  }
}
