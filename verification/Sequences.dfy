/** In-order subsequences, read from the back because every log in this project grows at the end. */
module Sequences {

  predicate Subsequence<T(==)>(a: seq<T>, b: seq<T>)
    decreases |b|
  {
    || a == []
    || (b != [] && Subsequence(a, b[..|b| - 1]))
    || (b != [] && a[|a| - 1] == b[|b| - 1] && Subsequence(a[..|a| - 1], b[..|b| - 1]))
  }

  lemma ExtendBoth<T>(a: seq<T>, b: seq<T>, x: T)
    requires Subsequence(a, b)
    ensures Subsequence(a + [x], b + [x])
  {
    assert (a + [x])[..|a|] == a && (b + [x])[..|b|] == b;
  }

  lemma {:induction false} DropLast<T>(a: seq<T>, b: seq<T>)
    requires a != [] && Subsequence(a, b)
    ensures Subsequence(a[..|a| - 1], b)
    decreases |b|
  {
    if Subsequence(a, b[..|b| - 1]) {
      DropLast(a, b[..|b| - 1]);
    }
  }

  lemma Assoc<T>(a: seq<T>, b: seq<T>, c: seq<T>)
    ensures (a + b) + c == a + (b + c)
  {}

  lemma SliceOfTake<T>(s: seq<T>, m: nat, a: nat, b: nat)
    requires a <= b <= m <= |s|
    ensures s[..m][a..b] == s[a..b]
  {
    forall k | 0 <= k < b - a
      ensures s[..m][a..b][k] == s[a..b][k]
    {}
  }

  /** Where every character of a separated pair lies. */
  lemma SplitAt<T>(whole: seq<T>, left: seq<T>, separator: T, right: seq<T>)
    requires whole == left + [separator] + right
    ensures whole[|left|] == separator && whole[..|left|] == left && whole[|left| + 1..] == right
    ensures forall i :: 0 <= i < |left| ==> whole[i] == left[i]
    ensures forall i :: |left| < i < |whole| ==> whole[i] == right[i - |left| - 1]
  {}
}
