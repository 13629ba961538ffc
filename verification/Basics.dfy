/** Types and set facts shared by the other modules. */
module Basics {

  datatype Option<+T> = None | Some(value: T)

  lemma {:induction false} SubsetCard<T>(a: set<T>, b: set<T>)
    requires a <= b
    ensures |a| <= |b|
    ensures |a| == |b| ==> a == b
  {
    if a == {} {
    } else {
      var x :| x in a;
      SubsetCard(a - {x}, b - {x});
    }
  }

  /** If each step from a good position leads to a good one exactly when it is not bad, then so do n steps. */
  lemma {:induction false} StayGoodIff(good: nat -> bool, bad: nat -> bool, n: nat)
    requires good(0) && forall j: nat :: j < n && good(j) ==> (good(j + 1) <==> !bad(j))
    ensures (forall m: nat :: m <= n ==> good(m)) <==> (forall j: nat :: j < n ==> !bad(j))
  {
    if n == 0 {
    } else {
      StayGoodIff(good, bad, n - 1);
      if good(n - 1) {
        assert good(n) <==> !bad(n - 1);
      }
    }
  }
}
