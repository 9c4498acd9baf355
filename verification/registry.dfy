/** Finalisation of the registry: after the last registration `setup()`
    calls `sortHandlers` once, so that get-next can walk the entries in
    ascending identifier order.

    The sort itself belongs to the agent library.  `Finalize` is a
    reference insertion sort standing for its postcondition — an ascending
    permutation of the registered entries — and `SortedPermutationUnique`
    shows that this postcondition fixes the result completely once the
    identifiers are distinct, so nothing below depends on how the library
    sorts. */
module Registry {
  import opened Oids
  import opened Mib
  import opened MibFacts
  import Component

  /** No entry sorts before an entry to its left. */
  ghost predicate Ascending(s: seq<Entry>) {
    forall i, j :: 0 <= i < j < |s| ==> !Less(s[j].oid, s[i].oid)
  }

  /** Identifiers strictly increase from left to right. */
  ghost predicate StrictlyAscending(s: seq<Entry>) {
    forall i, j :: 0 <= i < j < |s| ==> Less(s[i].oid, s[j].oid)
  }

  /** Places `e` before the first entry that does not sort before it; the
      result holds exactly the entries of `s` and `e`. */
  function Insert(e: Entry, s: seq<Entry>): (r: seq<Entry>)
    ensures multiset(r) == multiset(s) + multiset{e}
    decreases |s|
  {
    if |s| == 0 then [e]
    else if !Less(s[0].oid, e.oid) then [e] + s
    else
      assert s == [s[0]] + s[1..];
      [s[0]] + Insert(e, s[1..])
  }

  /** `sortHandlers`, as the sorted permutation it produces: no entry is
      lost or duplicated (the order is `FinalizeSortsAndPermutes`). */
  function Finalize(s: seq<Entry>): (r: seq<Entry>)
    ensures multiset(r) == multiset(s)
    decreases |s|
  {
    if |s| == 0 then []
    else
      assert s == [s[0]] + s[1..];
      Insert(s[0], Finalize(s[1..]))
  }

  lemma {:induction false} InsertAscending(e: Entry, s: seq<Entry>)
    requires Ascending(s)
    ensures Ascending(Insert(e, s))
    decreases |s|
  {
    if |s| == 0 {
    } else if !Less(s[0].oid, e.oid) {
      var r := [e] + s;
      forall j | 0 < j < |r|
        ensures !Less(r[j].oid, e.oid)
      {
        if j == 1 {
          LessIrreflexive(s[0].oid);
        } else {
          assert !Less(s[j - 1].oid, s[0].oid);
        }
        NotLessTransitive(e.oid, s[0].oid, r[j].oid);
      }
    } else {
      var tail := Insert(e, s[1..]);
      InsertAscending(e, s[1..]);
      forall j | 0 <= j < |tail|
        ensures !Less(tail[j].oid, s[0].oid)
      {
        assert tail[j] in multiset(s[1..]) + multiset{e};
        if tail[j] != e {
          assert tail[j] in s[1..];
        } else {
          LessAsymmetric(s[0].oid, e.oid);
        }
      }
    }
  }

  lemma {:induction false} InsertStrictlyAscending(e: Entry, s: seq<Entry>)
    requires StrictlyAscending(s)
    requires forall x :: x in s ==> x.oid != e.oid
    ensures StrictlyAscending(Insert(e, s))
    decreases |s|
  {
    if |s| == 0 {
    } else if !Less(s[0].oid, e.oid) {
      LessTotal(e.oid, s[0].oid);
      var r := [e] + s;
      forall j | 1 < j < |r|
        ensures Less(e.oid, r[j].oid)
      {
        LessTransitive(e.oid, s[0].oid, r[j].oid);
      }
    } else {
      var tail := Insert(e, s[1..]);
      InsertStrictlyAscending(e, s[1..]);
      forall j | 0 <= j < |tail|
        ensures Less(s[0].oid, tail[j].oid)
      {
        assert tail[j] in multiset(s[1..]) + multiset{e};
        if tail[j] != e {
          assert tail[j] in s[1..];
        }
      }
    }
  }

  /** The finalised registry is an ascending permutation of what was
      registered. */
  lemma {:induction false} FinalizeSortsAndPermutes(s: seq<Entry>)
    ensures Ascending(Finalize(s))
    ensures multiset(Finalize(s)) == multiset(s)
    decreases |s|
  {
    if |s| > 0 {
      FinalizeSortsAndPermutes(s[1..]);
      InsertAscending(s[0], Finalize(s[1..]));
    }
  }

  /** With distinct identifiers, the order is strict: get-next from any
      registered identifier finds exactly one successor. */
  lemma {:induction false} FinalizeStrictlyAscending(s: seq<Entry>)
    requires Distinct(OidsOf(s))
    ensures StrictlyAscending(Finalize(s))
    decreases |s|
  {
    if |s| > 0 {
      assert Distinct(OidsOf(s[1..])) by {
        forall i, j | 0 <= i < j < |s[1..]|
          ensures OidsOf(s[1..])[i] != OidsOf(s[1..])[j]
        {
          assert OidsOf(s)[i + 1] != OidsOf(s)[j + 1];
        }
      }
      FinalizeStrictlyAscending(s[1..]);
      FinalizeSortsAndPermutes(s[1..]);
      forall x | x in Finalize(s[1..])
        ensures x.oid != s[0].oid
      {
        assert x in multiset(s[1..]);
        var k :| 0 <= k < |s[1..]| && s[1..][k] == x;
        assert OidsOf(s)[0] != OidsOf(s)[k + 1];
      }
      InsertStrictlyAscending(s[0], Finalize(s[1..]));
    }
  }

  /** Sorting an already sorted registry changes nothing, so a second
      `sortHandlers` would be a no-op. */
  lemma {:induction false} FinalizeAscendingIdentity(s: seq<Entry>)
    requires Ascending(s)
    ensures Finalize(s) == s
    decreases |s|
  {
    if |s| > 0 {
      FinalizeAscendingIdentity(s[1..]);
      assert Finalize(s) == Insert(s[0], s[1..]);
    }
  }

  lemma FinalizeIdempotent(s: seq<Entry>)
    ensures Finalize(Finalize(s)) == Finalize(s)
  {
    FinalizeSortsAndPermutes(s);
    FinalizeAscendingIdentity(Finalize(s));
  }

  /** Two strictly ascending arrangements of the same entries are the same
      sequence: the sorted registry does not depend on the sort used. */
  lemma {:induction false} SortedPermutationUnique(a: seq<Entry>, b: seq<Entry>)
    requires StrictlyAscending(a) && StrictlyAscending(b)
    requires multiset(a) == multiset(b)
    ensures a == b
    decreases |a|
  {
    assert |a| == |multiset(a)| == |multiset(b)| == |b|;
    if |a| > 0 {
      if a[0] != b[0] {
        assert a[0] in multiset(b);
        var j :| 0 <= j < |b| && b[j] == a[0];
        assert b[0] in multiset(a);
        var i :| 0 <= i < |a| && a[i] == b[0];
        assert Less(b[0].oid, a[0].oid);
        assert Less(a[0].oid, b[0].oid);
        LessAsymmetric(a[0].oid, b[0].oid);
      }
      assert a == [a[0]] + a[1..];
      assert b == [b[0]] + b[1..];
      assert multiset(a) == multiset{a[0]} + multiset(a[1..]);
      assert multiset(b) == multiset{b[0]} + multiset(b[1..]);
      assert multiset(a[1..]) == multiset(a) - multiset{a[0]};
      assert multiset(b[1..]) == multiset(b) - multiset{b[0]};
      SortedPermutationUnique(a[1..], b[1..]);
    }
  }

  /** Strictly ascending identifiers are pairwise distinct. */
  lemma StrictlyAscendingDistinct(s: seq<Entry>)
    requires StrictlyAscending(s)
    ensures Distinct(OidsOf(s))
  {
    forall i, j | 0 <= i < j < |s|
      ensures OidsOf(s)[i] != OidsOf(s)[j]
    {
      LessIrreflexive(s[i].oid);
    }
  }

  /** Rearranging the entries keeps the set of registered identifiers. */
  lemma OidsOfPermutation(a: seq<Entry>, b: seq<Entry>, o: Oid)
    requires multiset(a) == multiset(b)
    requires o in OidsOf(a)
    ensures o in OidsOf(b)
  {
    var k :| 0 <= k < |a| && OidsOf(a)[k] == o;
    assert a[k] in multiset(b);
    InOidsOf(b, a[k]);
  }

  /** The registry `setup()` leaves behind: every registration of
      `BuildMib`, then one sort. */
  function Setup(board: Board, config: Component.Config, description: string): seq<Entry> {
    Finalize(BuildMib(board, config, description))
  }

  /** After `setup()` the registry holds exactly the registered entries, in
      strictly ascending identifier order, and it is the only arrangement
      of them with that property. */
  lemma SetupSorted(board: Board, config: Component.Config, description: string)
    ensures StrictlyAscending(Setup(board, config, description))
    ensures multiset(Setup(board, config, description)) == multiset(BuildMib(board, config, description))
    ensures forall r :: StrictlyAscending(r) && multiset(r) == multiset(BuildMib(board, config, description)) ==>
              r == Setup(board, config, description)
  {
    var s := BuildMib(board, config, description);
    BuildMibDistinct(board, config, description);
    FinalizeSortsAndPermutes(s);
    FinalizeStrictlyAscending(s);
    forall r | StrictlyAscending(r) && multiset(r) == multiset(s)
      ensures r == Finalize(s)
    {
      SortedPermutationUnique(r, Finalize(s));
    }
  }
}
