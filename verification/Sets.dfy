/** Cardinality facts shared by the proofs about finite structures. */
module Sets {

  /** `f` takes different elements of `s` to different values. */
  ghost predicate InjectiveOn<A(!new), B(!new)>(s: set<A>, f: A -> B) {
    forall a, b :: a in s && b in s && f(a) == f(b) ==> a == b
  }

  /** A set that maps injectively into another is no larger. */
  lemma {:induction false} InjectionBound<A(!new), B(!new)>(s: set<A>, t: set<B>, f: A -> B)
    requires InjectiveOn(s, f)
    requires forall a :: a in s ==> f(a) in t
    ensures |s| <= |t|
  {
    if s != {} {
      var a :| a in s;
      InjectionBound(s - {a}, t - {f(a)}, f);
    }
  }

  lemma {:induction false} SubsetSize<A>(s: set<A>, t: set<A>)
    requires s <= t
    ensures |s| <= |t|
    ensures |s| == |t| ==> s == t
  {
    if s != {} {
      var a :| a in s;
      SubsetSize(s - {a}, t - {a});
    }
  }

  /** The numbers under `n`. */
  ghost function Below(n: nat): (s: set<nat>)
    ensures forall i: nat :: i in s <==> i < n
    ensures |s| == n
  {
    if n == 0 then {} else Below(n - 1) + {n - 1}
  }
}
