/** Concatenating a sequence of sequences, and where each element of the
    result comes from. */
module Seqs {

  function Flatten<T>(ls: seq<seq<T>>): seq<T> {
    if |ls| == 0 then [] else Flatten(ls[..|ls| - 1]) + ls[|ls| - 1]
  }

  /** `f` applied to each element, in order. */
  function Map<A, B>(f: A -> B, s: seq<A>): seq<B> {
    seq(|s|, k requires 0 <= k < |s| => f(s[k]))
  }

  lemma MapAppend<A, B>(f: A -> B, a: seq<A>, b: seq<A>)
    ensures Map(f, a + b) == Map(f, a) + Map(f, b)
  {
    var l := Map(f, a + b);
    var r := Map(f, a) + Map(f, b);
    forall k | 0 <= k < |l| ensures l[k] == r[k] {
      if k < |a| {
        assert (a + b)[k] == a[k];
      } else {
        assert (a + b)[k] == b[k - |a|];
      }
    }
  }

  /** Extending a prefix by one element. */
  lemma PrefixSnoc<T>(s: seq<T>, i: nat)
    requires i < |s|
    ensures s[..i + 1] == s[..i] + [s[i]]
  {
  }

  lemma FlattenSnoc<T>(ls: seq<seq<T>>, l: seq<T>)
    ensures Flatten(ls + [l]) == Flatten(ls) + l
  {
    assert (ls + [l])[..|ls|] == ls;
  }

  /** The inner sequences up to and including the i-th are laid out first. */
  lemma {:induction false} FlattenSplit<T>(ls: seq<seq<T>>, i: nat)
    requires i < |ls|
    ensures Flatten(ls[..i]) + ls[i] <= Flatten(ls)
  {
    var n := |ls| - 1;
    if i < n {
      var init := ls[..n];
      FlattenSplit(init, i);
      assert init[..i] == ls[..i] && init[i] == ls[i];
    }
  }

  /** Element j of the i-th inner sequence sits at offset j after the
      inner sequences before it. */
  lemma FlattenIndex<T>(ls: seq<seq<T>>, i: nat, j: nat)
    requires i < |ls| && j < |ls[i]|
    ensures |Flatten(ls[..i])| + j < |Flatten(ls)|
    ensures Flatten(ls)[|Flatten(ls[..i])| + j] == ls[i][j]
  {
    FlattenSplit(ls, i);
    assert (Flatten(ls[..i]) + ls[i])[|Flatten(ls[..i])| + j] == ls[i][j];
  }

  /** Every element of the result is some element j of some inner sequence
      i, found at that offset. */
  lemma {:induction false} FlattenOrigin<T>(ls: seq<seq<T>>, k: nat) returns (i: nat, j: nat)
    requires k < |Flatten(ls)|
    ensures i < |ls| && j < |ls[i]|
    ensures k == |Flatten(ls[..i])| + j
    ensures Flatten(ls)[k] == ls[i][j]
  {
    var n := |ls| - 1;
    var init := ls[..n];
    if k < |Flatten(init)| {
      i, j := FlattenOrigin(init, k);
      assert init[..i] == ls[..i] && init[i] == ls[i];
    } else {
      i, j := n, k - |Flatten(init)|;
      assert ls[..n] == init;
    }
  }
}
