/** Lists compared as the receiver compares them: by length, and by looking up each element. */
module Lists {
  predicate ListChecks<A(==)>(received: seq<A>, local: seq<A>) {
    |received| == |local| && forall a :: a in received ==> a in local
  }

  ghost predicate SameElements<A>(received: seq<A>, local: seq<A>) {
    (set a | a in received) == (set a | a in local)
  }

  predicate NoDuplicates<A(==)>(s: seq<A>) {
    forall i, j :: 0 <= i < j < |s| ==> s[i] != s[j]
  }

  predicate AllAlike<A(==)>(s: seq<A>) {
    forall x, y :: x in s && y in s ==> x == y
  }

  lemma {:induction false} SubsetSize<A>(a: set<A>, b: set<A>)
    requires a <= b
    ensures |a| <= |b|
  {
    if a == {} {
    } else {
      var x :| x in a;
      SubsetSize(a - {x}, b - {x});
    }
  }

  lemma {:induction false} SubsetOfSameSize<A>(a: set<A>, b: set<A>)
    requires a <= b && |a| >= |b|
    ensures a == b
  {
    if a != b {
      var x :| x in b && x !in a;
      SubsetSize(a, b - {x});
    }
  }

  /** A list has as many elements as positions exactly when none is repeated. */
  lemma {:induction false} ElementCount<A>(s: seq<A>)
    ensures |set a | a in s| <= |s|
    ensures |set a | a in s| == |s| <==> NoDuplicates(s)
  {
    if s == [] {
    } else {
      var front, last := s[..|s| - 1], s[|s| - 1];
      ElementCount(front);
      assert s == front + [last];
      assert (set a | a in s) == (set a | a in front) + {last};
      if last in front {
        assert (set a | a in s) == (set a | a in front);
        var i :| 0 <= i < |front| && front[i] == last;
        assert s[i] == s[|s| - 1];
      }
    }
  }

  /** For a received list without repetitions, counting and looking up is set equality with a
      local list without repetitions, in any order. */
  lemma {:induction false} ChecksWithoutRepetition<A>(received: seq<A>, local: seq<A>)
    requires NoDuplicates(received)
    ensures ListChecks(received, local) <==> SameElements(received, local) && NoDuplicates(local)
  {
    var R, L := set a | a in received, set a | a in local;
    ElementCount(received);
    ElementCount(local);
    if ListChecks(received, local) {
      assert R <= L;
      SubsetOfSameSize(R, L);
    } else if R == L {
      assert forall a :: a in received ==> a in R;
    }
  }

  function Repeat<A>(x: A, n: nat): (s: seq<A>)
    ensures |s| == n && forall i :: 0 <= i < n ==> s[i] == x
  {
    if n == 0 then [] else [x] + Repeat(x, n - 1)
  }

  /** One element repeated passes for any list that holds it, and misses every other. */
  lemma {:induction false} RepetitionPasses<A>(x: A, y: A, local: seq<A>)
    requires x in local && y in local && x != y
    ensures ListChecks(Repeat(x, |local|), local) && !SameElements(Repeat(x, |local|), local)
  {
    var R, L := set a | a in Repeat(x, |local|), set a | a in local;
    assert y in L && y !in R;
  }

  lemma {:induction false} AlikeListsAgree<A>(received: seq<A>, local: seq<A>)
    requires AllAlike(local) && ListChecks(received, local)
    ensures SameElements(received, local)
  {
    if local == [] {
    } else {
      assert received[0] in received && local[0] in local;
    }
  }

  /** Every list that passes has exactly the elements of the local one if and only if the local
      list has no two different elements. */
  lemma {:induction false} CheckIsSetEqualityExactly<A(!new)>(local: seq<A>)
    ensures (forall received: seq<A> | ListChecks(received, local) :: SameElements(received, local))
       <==> AllAlike(local)
  {
    if AllAlike(local) {
      forall received: seq<A> | ListChecks(received, local)
        ensures SameElements(received, local)
      {
        AlikeListsAgree(received, local);
      }
    } else {
      var x, y :| x in local && y in local && x != y;
      RepetitionPasses(x, y, local);
    }
  }
}
