/** Finite sets. */
module Sets {

  lemma Pick<T>(s: set<T>) returns (x: T)
    requires s != {}
    ensures x in s
  {
    x :| x in s;
  }

  lemma SameMembers(a: set<int>, b: set<int>)
    requires forall x :: x in a <==> x in b
    ensures a == b
  {
    if a - b != {} {
      var x := Pick(a - b);
    }
    if b - a != {} {
      var x := Pick(b - a);
    }
  }

  lemma SameNumbers(a: set<nat>, b: set<nat>)
    requires forall x :: x in a <==> x in b
    ensures a == b
  {
    if a - b != {} {
      var x := Pick(a - b);
    }
    if b - a != {} {
      var x := Pick(b - a);
    }
  }
}
