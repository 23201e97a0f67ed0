/** Facts about sequences of names shared by the broker and the regression gate. */
module Seqs {

  /** No name occurs twice. */
  predicate NoDups(s: seq<string>)
  {
    forall i, j :: 0 <= i < j < |s| ==> s[i] != s[j]
  }

  /** Cutting element `k + 1` out of `s` is putting the head back in front of the cut tail. */
  lemma ConsSplice(s: seq<string>, k: nat)
    requires k + 1 < |s|
    ensures [s[0]] + (s[1..][..k] + s[1..][k + 1..]) == s[..k + 1] + s[k + 2..]
  {
    assert s[1..][..k] == s[1..k + 1];
    assert s[1..][k + 1..] == s[k + 2..];
    assert [s[0]] + s[1..k + 1] == s[..k + 1];
  }
}
