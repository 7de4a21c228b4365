/** Small facts about sequences and finite sets that the graph proofs share. */
module Seqs {

  /** No element occurs twice (a Python list built with "append if not in"). */
  ghost predicate NoDups<T>(s: seq<T>) {
    forall i, j :: 0 <= i < j < |s| ==> s[i] != s[j]
  }

  function Last<T>(s: seq<T>): T
    requires |s| > 0
  {
    s[|s| - 1]
  }

  /** A non-empty sequence is its front followed by its last element. */
  lemma InitLast<T>(s: seq<T>)
    requires |s| > 0
    ensures s == s[..|s| - 1] + [Last(s)]
  {
  }

  lemma NoDupsAppend<T>(s: seq<T>, x: T)
    requires NoDups(s) && x !in s
    ensures NoDups(s + [x])
  {
  }

  lemma NoDupsLastNew<T>(s: seq<T>, x: T)
    requires NoDups(s + [x])
    ensures x !in s
  {
    forall j | 0 <= j < |s|
      ensures s[j] != x
    {
      assert (s + [x])[j] == s[j] && (s + [x])[|s|] == x;
    }
  }

  lemma {:induction false} SubsetCard<T>(a: set<T>, b: set<T>)
    requires a <= b
    ensures |a| <= |b|
    decreases |a|
  {
    if a != {} {
      var x :| x in a;
      SubsetCard(a - {x}, b - {x});
    }
  }

  lemma StrictSubsetCard<T>(a: set<T>, b: set<T>)
    requires a < b
    ensures |a| < |b|
  {
    var y :| y in b && y !in a;
    SubsetCard(a, b - {y});
  }

  /** Marking a fresh element of the universe `k` shrinks what is left to mark. */
  lemma RemainingShrinks<T>(k: set<T>, v: set<T>, w: set<T>, x: T)
    requires x in k && x !in v && v + {x} <= w
    ensures |k - w| < |k - v|
  {
    StrictSubsetCard(k - w, k - v);
  }

  lemma RemainingNoGrow<T>(k: set<T>, v: set<T>, w: set<T>)
    requires v <= w
    ensures |k - w| <= |k - v|
  {
    SubsetCard(k - w, k - v);
  }

  /** The first position of `x` in `s`. */
  ghost function IndexOf<T>(s: seq<T>, x: T): (i: nat)
    requires x in s
    ensures i < |s| && s[i] == x
    ensures forall j :: 0 <= j < i ==> s[j] != x
  {
    if s[0] == x then 0
    else
      assert x in s[1..] by {
        var k :| 0 <= k < |s| && s[k] == x;
        assert s[1..][k - 1] == x;
      }
      1 + IndexOf(s[1..], x)
  }

  lemma IndexOfNew<T>(ids: seq<T>, k: T)
    requires k !in ids
    ensures IndexOf(ids + [k], k) == |ids|
  {
    var s := ids + [k];
    assert s[|ids|] == k;
    assert forall j :: 0 <= j < |ids| ==> s[j] != k;
  }

  lemma IndexOfPrefix<T>(a: seq<T>, b: seq<T>, x: T)
    requires x in a
    ensures IndexOf(a + b, x) == IndexOf(a, x)
  {
    var s := a + b;
    assert s[IndexOf(a, x)] == x;
    assert forall j :: 0 <= j < IndexOf(a, x) ==> s[j] != x;
  }
}
