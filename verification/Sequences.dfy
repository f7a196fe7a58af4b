/** Counting in sequences, for the invariants that put every record in exactly one place. */
module Sequences {
  function One(b: bool): nat {
    if b then 1 else 0
  }

  function Last<T>(q: seq<T>): T
    requires q != []
  {
    q[|q| - 1]
  }

  lemma HeadCounts<T>(q: seq<T>)
    requires q != []
    ensures multiset(q) == multiset{q[0]} + multiset(q[1..])
  {
    assert q == [q[0]] + q[1..];
  }
}
