/** Counting the entries of a map whose value satisfies a condition, as entries change. */
module Counting {
  function Matching<V>(m: map<nat, V>, p: V -> bool): set<nat> {
    set k | k in m && p(m[k])
  }

  function Count<V>(m: map<nat, V>, p: V -> bool): nat {
    |Matching(m, p)|
  }

  lemma {:induction false} SizeWithout<T>(a: set<T>, x: T)
    ensures |a - {x}| == |a| - if x in a then 1 else 0
  {
    if x !in a {
      assert a - {x} == a;
    }
  }

  lemma {:induction false} OthersMatchAlike<V>(m: map<nat, V>, k: nat, v: V, p: V -> bool)
    ensures Matching(m[k := v], p) - {k} == Matching(m, p) - {k}
  {
    var n := m[k := v];
    forall j | j != k ensures j in Matching(n, p) <==> j in Matching(m, p) {
      assert j in n <==> j in m;
    }
  }

  lemma {:induction false} InMatching<V>(m: map<nat, V>, p: V -> bool, k: nat)
    ensures k in Matching(m, p) <==> k in m && p(m[k])
  {
  }

  lemma {:induction false} CountUpdate<V>(m: map<nat, V>, k: nat, v: V, p: V -> bool)
    ensures Count(m[k := v], p) == Count(m, p) - (if k in m && p(m[k]) then 1 else 0) + (if p(v) then 1 else 0)
  {
    var a, b := Matching(m, p), Matching(m[k := v], p);
    OthersMatchAlike(m, k, v, p);
    InMatching(m, p, k);
    InMatching(m[k := v], p, k);
    SizeWithout(a, k);
    SizeWithout(b, k);
  }

  /** A positive count has a witness, and every witness makes the count positive. */
  lemma {:induction false} CountPositive<V>(m: map<nat, V>, p: V -> bool)
    ensures Count(m, p) > 0 <==> exists k :: k in m && p(m[k])
  {
    if Count(m, p) > 0 {
      var k :| k in Matching(m, p);
    }
    if k :| k in m && p(m[k]) {
      assert k in Matching(m, p);
    }
  }

  /** A count of at most one leaves no two witnesses. */
  lemma {:induction false} CountUnique<V>(m: map<nat, V>, p: V -> bool, j: nat, k: nat)
    requires Count(m, p) <= 1 && j in m && k in m && p(m[j]) && p(m[k])
    ensures j == k
  {
    var others := Matching(m, p) - {j, k};
    assert Matching(m, p) == others + {j, k};
  }

  lemma {:induction false} SubsetCount<T>(a: set<T>, b: set<T>)
    requires a <= b
    ensures |a| <= |b| && (a != b ==> |a| < |b|)
  {
    assert b == a + (b - a);
  }

  lemma {:induction false} CountMonotone<V>(m: map<nat, V>, p: V -> bool, q: V -> bool)
    requires forall k :: k in m && p(m[k]) ==> q(m[k])
    ensures Count(m, p) <= Count(m, q)
  {
    SubsetCount(Matching(m, p), Matching(m, q));
  }
}
