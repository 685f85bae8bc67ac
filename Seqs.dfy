/** Linear searches over sequences, shared by the name listing, the detail lookup and the
    string operations. */
module Seqs {
  import opened Wrappers

  /** The index of the first element satisfying `p`, or `None` when there is none. */
  function FirstIndex<T>(s: seq<T>, p: T -> bool): (r: Option<nat>)
    ensures r.Some? ==> r.value < |s| && p(s[r.value])
    ensures r.Some? ==> forall j :: 0 <= j < r.value ==> !p(s[j])
    ensures r.None? ==> forall j :: 0 <= j < |s| ==> !p(s[j])
  {
    if s == [] then None
    else if p(s[0]) then Some(0)
    else
      match FirstIndex(s[1..], p)
      case None => None
      case Some(k) =>
        assert forall j :: 1 <= j < k + 1 ==> s[j] == s[1..][j - 1];
        Some(k + 1)
  }

  /** An index that satisfies `p` with no earlier one that does is what `FirstIndex` finds. */
  lemma FirstIndexAt<T>(s: seq<T>, p: T -> bool, k: nat)
    requires k < |s| && p(s[k])
    requires forall j :: 0 <= j < k ==> !p(s[j])
    ensures FirstIndex(s, p) == Some(k)
  {
  }

  /** The indices, in increasing order, of exactly the elements satisfying `p`. */
  function Positions<T>(s: seq<T>, p: T -> bool): (r: seq<nat>)
    ensures forall m :: 0 <= m < |r| ==> r[m] < |s| && p(s[r[m]])
    ensures forall m, n :: 0 <= m < n < |r| ==> r[m] < r[n]
    ensures forall i :: 0 <= i < |s| && p(s[i]) ==> i in r
  {
    if s == [] then []
    else
      var init := Positions(s[..|s| - 1], p);
      assert forall m :: 0 <= m < |init| ==> s[init[m]] == s[..|s| - 1][init[m]];
      assert forall i :: 0 <= i < |s| - 1 ==> s[i] == s[..|s| - 1][i];
      if p(s[|s| - 1]) then init + [|s| - 1] else init
  }

  /** No element satisfies `p` exactly when there are no positions to report. */
  lemma {:induction false} PositionsEmpty<T>(s: seq<T>, p: T -> bool)
    ensures Positions(s, p) == [] <==> forall i :: 0 <= i < |s| ==> !p(s[i])
  {
    var r := Positions(s, p);
    if r != [] {
      assert p(s[r[0]]);
    }
  }

  /** A non-empty slice is its first element followed by the rest of it. */
  lemma SliceCons<T>(s: seq<T>, i: nat, j: nat)
    requires i < j <= |s|
    ensures s[i..j] == [s[i]] + s[i + 1..j]
  {
  }
}
