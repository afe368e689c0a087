/** Cardinality facts about finite sets. */
module Sets {

  lemma Choose<T>(a: set<T>) returns (x: T)
    requires |a| > 0
    ensures x in a
  {
    x :| x in a;
  }

  lemma SubsetBound<T>(a: set<T>, b: set<T>)
    requires a <= b
    ensures |a| <= |b|
    ensures |a| == |b| ==> a == b
  {
    assert b == a + (b - a);
    assert |b| == |a| + |b - a|;
  }

  lemma UnionBound<T>(a: set<T>, b: set<T>, c: set<T>)
    requires a <= b + c
    ensures |a| <= |b| + |c|
  {
    SubsetBound(a, b + c);
    SubsetBound(c - b, c);
    assert b + c == b + (c - b);
  }

  /** Shifting a set of integers keeps its size. */
  lemma {:induction false} ShiftBound(a: set<int>, b: set<int>, n: int)
    requires forall j :: j in a ==> j - n in b
    ensures |a| <= |b|
  {
    if |a| > 0 {
      var j := Choose(a);
      ShiftBound(a - {j}, b - {j - n}, n);
    }
  }

  /** A number larger than all that were used. */
  lemma {:induction false} Unused(used: set<int>) returns (id: int)
    ensures forall other :: other in used ==> other < id
  {
    if used == {} {
      id := 0;
    } else {
      var some := Choose(used);
      var rest := used - {some};
      id := Unused(rest);
      assert forall other :: other in used ==> other == some || other in rest;
      id := if id <= some then some + 1 else id;
    }
  }
}
