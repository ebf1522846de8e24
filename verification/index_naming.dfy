/**
 * Default names for indexes declared without one: the first key column's name, and on a
 * collision that name with `_2`, `_3`, ... appended, the first suffix not already used in the
 * table.  The reserved primary-key name is never handed out.
 */
module IndexNaming {
  import Text
  import Catalog

  /** The `suffix`-th candidate for `base`: `base` itself, then `base_2`, `base_3`, ... */
  function Candidate(base: string, suffix: nat): (r: string)
  {
    if suffix <= 1 then base else base + "_" + Text.NatToString(suffix)
  }

  /** A name is unavailable when an index already holds it or it is the reserved name. */
  predicate Taken(names: set<string>, name: string)
  {
    name in names || name == Catalog.PrimaryKeyName
  }

  function CandidatesBelow(base: string, k: nat): (r: set<string>)
  {
    set j | 1 <= j < k :: Candidate(base, j)
  }

  /** Different suffixes give different candidates. */
  lemma CandidateInjective(base: string, j: nat, k: nat)
    requires 1 <= j < k
    ensures Candidate(base, j) != Candidate(base, k)
  {
    var ck := Candidate(base, k);
    assert ck == base + "_" + Text.NatToString(k);
    if j >= 2 {
      var cj := Candidate(base, j);
      if cj == ck {
        var n := |base| + 1;
        assert cj[n..] == Text.NatToString(j);
        assert ck[n..] == Text.NatToString(k);
        Text.NatToStringInjective(j, k);
      }
    }
  }

  lemma CandidateNotBelow(base: string, k: nat)
    requires k >= 1
    ensures Candidate(base, k) !in CandidatesBelow(base, k)
  {
    forall j | 1 <= j < k
      ensures Candidate(base, j) != Candidate(base, k)
    {
      CandidateInjective(base, j, k);
    }
  }

  /**
   * The least suffix from `k` on whose candidate is free.  The search ends because each taken
   * candidate is a distinct member of the finite set of taken names.
   */
  function FreeSuffix(base: string, names: set<string>, k: nat): (r: nat)
    requires k >= 1
    ensures r >= k
    ensures !Taken(names, Candidate(base, r))
    ensures forall j :: k <= j < r ==> Taken(names, Candidate(base, j))
    decreases |(names + {Catalog.PrimaryKeyName}) - CandidatesBelow(base, k)|
  {
    if !Taken(names, Candidate(base, k)) then k
    else
      CandidateNotBelow(base, k);
      assert CandidatesBelow(base, k + 1) == CandidatesBelow(base, k) + {Candidate(base, k)};
      var pool := (names + {Catalog.PrimaryKeyName}) - CandidatesBelow(base, k);
      assert (names + {Catalog.PrimaryKeyName}) - CandidatesBelow(base, k + 1) == pool - {Candidate(base, k)};
      FreeSuffix(base, names, k + 1)
  }

  /**
   * The default name of an index whose first key is `base`, given the names already used in
   * the table: `base` when free, otherwise `base_N` for the least N >= 2 that is free.
   */
  function AutoName(names: set<string>, base: string): (r: string)
    ensures r !in names && r != Catalog.PrimaryKeyName
    ensures !Taken(names, base) ==> r == base
    ensures Taken(names, base) ==>
      exists n: nat :: n >= 2 && r == base + "_" + Text.NatToString(n)
        && forall j :: 2 <= j < n ==> Taken(names, base + "_" + Text.NatToString(j))
  {
    var n := FreeSuffix(base, names, 1);
    assert forall j :: 2 <= j < n ==> Candidate(base, j) == base + "_" + Text.NatToString(j);
    Candidate(base, n)
  }

  /**
   * The default name is the first free candidate: when candidates 1 .. k-1 are all taken and
   * the k-th is free, the k-th is the name handed out.
   */
  lemma AutoNameIsFirstFree(names: set<string>, base: string, k: nat)
    requires k >= 1
    requires forall j :: 1 <= j < k ==> Taken(names, Candidate(base, j))
    requires !Taken(names, Candidate(base, k))
    ensures AutoName(names, base) == Candidate(base, k)
  {
    var n := FreeSuffix(base, names, 1);
    assert !(n < k);
    assert !(k < n);
  }
}
