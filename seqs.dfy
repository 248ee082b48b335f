/** Facts about slices and concatenations, stated for any element type so that their
    proofs do not see the axioms of the element types the model uses. */
module Seqs {

  /** The last element and the rest of a concatenation with a non-empty tail. */
  lemma DropLastOfAppend<T>(a: seq<T>, b: seq<T>)
    requires b != []
    ensures (a + b)[..|a + b| - 1] == a + b[..|b| - 1] && (a + b)[|a + b| - 1] == b[|b| - 1]
  {
  }

  /** A sequence is what comes before position j, the element at j, and what follows. */
  lemma SplitAround<T>(b: seq<T>, j: int)
    requires 0 <= j < |b|
    ensures b == b[..j] + [b[j]] + b[j + 1..]
  {
  }

  /** Taking out the middle part of a sequence takes its elements out of the multiset. */
  lemma MultisetMiddle<T>(l: seq<T>, m: seq<T>, r: seq<T>)
    ensures multiset(l + m + r) == multiset(m) + multiset(l + r)
  {
  }

  /** A growing prefix of b after a: empty at first, one more element at each step,
      the whole of b at the end. */
  lemma AppendPrefix<T>(a: seq<T>, b: seq<T>, j: int)
    requires 0 <= j <= |b|
    ensures j == 0 ==> a + b[..j] == a
    ensures 0 < j ==> a + b[..j] == a + b[..j - 1] + [b[j - 1]]
    ensures j == |b| ==> a + b[..j] == a + b
  {
  }

  /** The five parts of a five-part concatenation, read back by position. */
  lemma FiveParts<T>(p1: seq<T>, p2: seq<T>, p3: seq<T>, p4: seq<T>, p5: seq<T>)
    ensures var s := p1 + p2 + p3 + p4 + p5;
      var a := |p1|;
      var b := a + |p2|;
      var c := b + |p3|;
      var d := c + |p4|;
      && |s| == d + |p5|
      && s[..a] == p1 && s[a..b] == p2 && s[b..c] == p3 && s[c..d] == p4 && s[d..] == p5
  {
  }

  /** A sequence that starts with p and holds sep n elements after p is p, those n
      elements, sep and the rest. */
  lemma Reassemble<T>(key: seq<T>, p: seq<T>, sep: seq<T>, n: int)
    requires |p| <= |key| && key[..|p|] == p
    requires 0 <= n && |p| + n + |sep| <= |key| && key[|p|..][n..][..|sep|] == sep
    ensures key == p + key[|p|..][..n] + sep + key[|p|..][n + |sep|..]
  {
    var rest := key[|p|..];
    assert key == key[..|p|] + rest;
    assert rest == rest[..n] + rest[n..][..|sep|] + rest[n + |sep|..];
  }

  /** The multiset of a non-empty sequence is that of all but its last element, plus it. */
  lemma MultisetSnoc<T>(s: seq<T>)
    requires s != []
    ensures multiset(s) == multiset(s[..|s| - 1]) + multiset{s[|s| - 1]}
  {
    assert s == s[..|s| - 1] + [s[|s| - 1]];
  }

  /** The elements of a non-empty sequence are those before its last one, and it. */
  lemma SnocMembers<T>(s: seq<T>)
    requires s != []
    ensures forall x :: x in s <==> x in s[..|s| - 1] || x == s[|s| - 1]
  {
    assert s == s[..|s| - 1] + [s[|s| - 1]];
  }

  /** A suffix that reaches the last element is the same suffix of the rest, then it. */
  lemma SuffixSnoc<T>(s: seq<T>, i: int)
    requires 0 <= i < |s|
    ensures s[i..] == s[..|s| - 1][i..] + [s[|s| - 1]]
  {
  }
}
