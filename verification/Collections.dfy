/** Choosing from finite sets and mapping sequences. */
module Collections {

  lemma {:induction false} LeastExists(s: set<nat>) returns (m: nat)
    requires s != {}
    ensures m in s && forall n :: n in s ==> m <= n
    decreases |s|
  {
    var x :| x in s;
    m := x;
    var rest := s - {x};
    assert forall n :: n in s ==> n == x || n in rest;
    if rest != {} {
      var least := LeastExists(rest);
      m := if x <= least then x else least;
    }
  }

  lemma {:induction false} GreaterExists(s: set<nat>) returns (m: nat)
    ensures forall n :: n in s ==> n < m
    decreases |s|
  {
    m := 0;
    if s != {} {
      var x :| x in s;
      var rest := s - {x};
      assert forall n :: n in s ==> n == x || n in rest;
      var greater := GreaterExists(rest);
      m := if x < greater then greater else x + 1;
    }
  }

  function Map<T, U>(f: T -> U, s: seq<T>): (r: seq<U>)
    ensures |r| == |s| && forall i :: 0 <= i < |s| ==> r[i] == f(s[i])
  {
    if s == [] then [] else [f(s[0])] + Map(f, s[1..])
  }

  lemma MapAppends<T, U>(f: T -> U, a: seq<T>, b: seq<T>)
    ensures Map(f, a + b) == Map(f, a) + Map(f, b)
  {
  }
}
