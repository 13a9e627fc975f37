module SetFacts {

  lemma {:induction false} SubsetCardinality<T>(a: set<T>, b: set<T>)
    requires a <= b
    ensures |a| <= |b|
    decreases b
  {
    if b != {} {
      var x :| x in b;
      SubsetCardinality(a - {x}, b - {x});
    }
  }

  lemma {:induction false} CardinalityBelow(m: nat, a: set<nat>)
    requires forall v :: v in a ==> v < m
    ensures |a| <= m
    decreases m
  {
    if m > 0 {
      CardinalityBelow(m - 1, a - {m - 1});
    }
  }

  ghost predicate IsLeast(s: set<nat>, n: nat) {
    n in s && forall m :: m in s ==> n <= m
  }

  lemma {:induction false} LeastExists(s: set<nat>) returns (n: nat)
    requires s != {}
    ensures IsLeast(s, n)
    decreases s
  {
    n :| n in s;
    var rest := s - {n};
    assert forall m :: m in s ==> m == n || m in rest;
    if rest != {} {
      var l := LeastExists(rest);
      if l < n {
        n := l;
      }
    }
  }

  lemma HasLeast(s: set<nat>)
    requires s != {}
    ensures exists n :: IsLeast(s, n)
  {
    var n := LeastExists(s);
  }

  ghost function Least(s: set<nat>): (n: nat)
    requires s != {}
    ensures IsLeast(s, n)
  {
    HasLeast(s);
    var n :| IsLeast(s, n);
    n
  }

  /** The numbers from lo up to, not including, hi. */
  ghost function Range(lo: nat, hi: nat): (r: set<nat>)
    requires lo <= hi
    ensures |r| == hi - lo && forall m :: m in r <==> lo <= m < hi
    decreases hi
  {
    if lo == hi then {} else Range(lo, hi - 1) + {hi - 1}
  }
}
