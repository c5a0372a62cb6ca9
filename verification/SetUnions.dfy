/** Unions of consecutive members of a family of sets, and how large they are. */
module SetUnions {

  function Union<T>(family: nat -> set<T>, first: nat, count: nat): set<T> {
    if count == 0 then {} else Union(family, first, count - 1) + family(first + count - 1)
  }

  lemma {:induction false} Owner<T>(family: nat -> set<T>, first: nat, count: nat, x: T) returns (i: nat)
    requires x in Union(family, first, count)
    ensures first <= i < first + count && x in family(i)
  {
    if x in Union(family, first, count - 1) {
      i := Owner(family, first, count - 1, x);
    } else {
      i := first + count - 1;
    }
  }

  lemma {:induction false} Contains<T>(family: nat -> set<T>, first: nat, count: nat, i: nat)
    requires first <= i < first + count
    ensures family(i) <= Union(family, first, count)
  {
    if i < first + count - 1 {
      Contains(family, first, count - 1, i);
    }
  }

  function Times(count: nat, each: nat): nat {
    count * each
  }

  lemma OneMore(count: nat, each: nat)
    ensures Times(count + 1, each) == Times(count, each) + each
  {}

  ghost predicate Disjoint<T>(family: nat -> set<T>) {
    forall i, j | i != j :: family(i) !! family(j)
  }

  ghost predicate Sized<T>(family: nat -> set<T>, each: nat) {
    forall i :: |family(i)| == each
  }

  lemma DisjointSum<T>(a: set<T>, b: set<T>)
    requires a !! b
    ensures |a + b| == |a| + |b|
  {}

  lemma NextIsNew<T>(family: nat -> set<T>, first: nat, count: nat)
    requires Disjoint(family)
    ensures Union(family, first, count) !! family(first + count)
  {
    var known, next := Union(family, first, count), family(first + count);
    forall x | x in known ensures x !in next {
      var i := Owner(family, first, count, x);
      assert family(i) !! family(first + count);
    }
  }

  /** Disjoint members of one size add up. */
  lemma {:induction false} UnionSize<T>(family: nat -> set<T>, first: nat, count: nat, each: nat)
    requires Disjoint(family) && Sized(family, each)
    ensures |Union(family, first, count)| == Times(count, each)
  {
    if count > 0 {
      UnionSize(family, first, count - 1, each);
      NextIsNew(family, first, count - 1);
      DisjointSum(Union(family, first, count - 1), family(first + count - 1));
      OneMore(count - 1, each);
    }
  }
}
