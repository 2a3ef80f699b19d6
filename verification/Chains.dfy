/** Finite relations and the non-empty chains they span. A pair `(x, y)` reads "y is one step above x". */
module Chains {

  ghost predicate Linked<T(!new)>(r: set<(T, T)>, p: seq<T>) {
    forall i :: 0 <= i < |p| - 1 ==> (p[i], p[i + 1]) in r
  }

  ghost predicate Via<T(!new)>(r: set<(T, T)>, p: seq<T>, x: T, y: T) {
    |p| >= 2 && p[0] == x && p[|p| - 1] == y && Linked(r, p)
  }

  /** A non-empty chain of steps leads from x up to y. */
  ghost predicate Chain<T(!new)>(r: set<(T, T)>, x: T, y: T) {
    exists p :: Via(r, p, x, y)
  }

  ghost predicate ChainOrEqual<T(!new)>(r: set<(T, T)>, x: T, y: T) {
    x == y || Chain(r, x, y)
  }

  lemma ChainStep<T(!new)>(r: set<(T, T)>, x: T, y: T)
    requires (x, y) in r
    ensures Chain(r, x, y)
  {
    assert Via(r, [x, y], x, y);
  }

  lemma LinkedTail<T(!new)>(r: set<(T, T)>, p: seq<T>)
    requires Linked(r, p) && |p| > 1
    ensures Linked(r, p[1..])
  {
    var q := p[1..];
    forall i | 0 <= i < |q| - 1 ensures (q[i], q[i + 1]) in r {
      assert q[i] == p[i + 1] && q[i + 1] == p[i + 2];
    }
  }

  lemma ChainCons<T(!new)>(r: set<(T, T)>, x: T, y: T, z: T)
    requires (x, y) in r && ChainOrEqual(r, y, z)
    ensures Chain(r, x, z)
  {
    if y == z {
      ChainStep(r, x, y);
    } else {
      var p :| Via(r, p, y, z);
      var q := [x] + p;
      forall i | 0 <= i < |q| - 1 ensures (q[i], q[i + 1]) in r {
        if i > 0 { assert q[i] == p[i - 1] && q[i + 1] == p[i]; }
      }
      assert Via(r, q, x, z);
    }
  }

  /** Chains compose: the fact that one forward taint pass silently relies on. */
  lemma ChainTransitive<T(!new)>(r: set<(T, T)>, x: T, y: T, z: T)
    requires Chain(r, x, y) && Chain(r, y, z)
    ensures Chain(r, x, z)
  {
    var p :| Via(r, p, x, y);
    var q :| Via(r, q, y, z);
    var s := p + q[1..];
    forall i | 0 <= i < |s| - 1 ensures (s[i], s[i + 1]) in r {
      if i < |p| - 1 {
        assert s[i] == p[i] && s[i + 1] == p[i + 1];
      } else {
        var k := i - (|p| - 1);
        assert s[i] == q[k] && s[i + 1] == q[k + 1];
      }
    }
    assert Via(r, s, x, z);
  }
}
