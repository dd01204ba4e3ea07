/** Sequences, as the models of lists, chunks and buckets use them. */
module Sequences {

  ghost predicate Distinct<T>(s: seq<T>) {
    forall i, j | 0 <= i < j < |s| :: s[i] != s[j]
  }

  /** `s` without its entry `i`. */
  function Without<T>(s: seq<T>, i: nat): seq<T>
    requires i < |s|
  {
    s[..i] + s[i + 1..]
  }

  lemma WithoutAt<T>(s: seq<T>, i: nat)
    requires Distinct(s) && i < |s|
    ensures forall k | 0 <= k < |s| - 1 :: Without(s, i)[k] == s[if k < i then k else k + 1]
    ensures Distinct(Without(s, i)) && s[i] !in Without(s, i)
  {
    assert forall k | 0 <= k < |s| - 1 :: Without(s, i)[k] == s[if k < i then k else k + 1];
  }

  lemma WithoutLater<T>(s: seq<T>, i: nat)
    requires 0 < i < |s|
    ensures Without(s, i) == [s[0]] + Without(s[1..], i - 1)
  {
    assert s[..i] == [s[0]] + s[1..][..i - 1] && s[i + 1..] == s[1..][i..];
  }

  /** `s` with `x` before its entry `i`, or at the end. */
  function With<T>(s: seq<T>, i: nat, x: T): seq<T>
    requires i <= |s|
  {
    s[..i] + [x] + s[i..]
  }

  lemma WithAt<T>(s: seq<T>, i: nat, x: T)
    requires Distinct(s) && i <= |s| && x !in s
    ensures forall k | 0 <= k <= |s| :: With(s, i, x)[k] == if k < i then s[k] else if k == i then x else s[k - 1]
    ensures Distinct(With(s, i, x))
  {
    var t := With(s, i, x);
    forall k | 0 <= k <= |s| ensures t[k] == if k < i then s[k] else if k == i then x else s[k - 1] {
      assert k > i ==> t[k] == s[i..][k - i - 1];
    }
  }

  /** The parts one after the other. */
  function Concat<T>(parts: seq<seq<T>>): seq<T> {
    if parts == [] then [] else Concat(parts[..|parts| - 1]) + parts[|parts| - 1]
  }

  lemma {:induction false} ConcatPrefix<T>(parts: seq<seq<T>>, k: nat)
    requires k <= |parts|
    ensures Concat(parts[..k]) <= Concat(parts)
  {
    if k < |parts| {
      var front := parts[..|parts| - 1];
      ConcatPrefix(front, k);
      assert front[..k] == parts[..k];
    } else {
      assert parts[..k] == parts;
    }
  }

  lemma ConcatNext<T>(parts: seq<seq<T>>, k: nat)
    requires k < |parts|
    ensures Concat(parts[..k + 1]) == Concat(parts[..k]) + parts[k]
  {
    assert parts[..k + 1][..k] == parts[..k];
  }
}
