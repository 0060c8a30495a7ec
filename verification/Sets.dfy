/** Sizes of finite sets. */
module Sets {
  predicate Inside(a: nat, b: nat, u: nat) {
    a <= u < b
  }

  /** The numbers from a up to b. */
  function Range(a: nat, b: nat): set<nat> {
    set u: nat | a <= u < b && Inside(a, b, u)
  }

  lemma {:induction false} RangeSize(a: nat, b: nat)
    requires a <= b
    ensures |Range(a, b)| == b - a
    decreases b
  {
    if a < b {
      RangeSize(a, b - 1);
      assert Range(a, b) == Range(a, b - 1) + {b - 1};
    } else {
      assert Range(a, b) == {};
    }
  }

  lemma OneMore(s: set<nat>, n: nat)
    ensures |s + {n}| == if n in s then |s| else |s| + 1
  {
    assert n in s ==> s + {n} == s;
  }

  lemma Together(a: set<nat>, b: set<nat>)
    ensures |a + b| <= |a| + |b|
  {
    assert a + b == a + (b - a);
    NoMore(b - a, b);
  }

  lemma NoMore(a: set<nat>, b: set<nat>)
    requires a <= b
    ensures |a| <= |b|
  {
    assert b == a + (b - a);
  }
}
