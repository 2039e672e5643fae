/** Strings in the order a BTreeMap keeps its keys, and iteration in that order. */
module Ordered {
  /** Lexicographic order; on Unicode scalar values it agrees with the order of UTF-8 bytes. */
  predicate Leq(a: string, b: string) {
    a == [] || (b != [] && (a[0] < b[0] || (a[0] == b[0] && Leq(a[1..], b[1..]))))
  }

  lemma LeqTotal(a: string, b: string)
    ensures Leq(a, b) || Leq(b, a)
  {
  }

  lemma {:induction false} LeqAntisymmetric(a: string, b: string)
    requires Leq(a, b) && Leq(b, a)
    ensures a == b
  {
    if a != [] {
      LeqAntisymmetric(a[1..], b[1..]);
      assert a == [a[0]] + a[1..] && b == [b[0]] + b[1..];
    }
  }

  lemma {:induction false} LeqTransitive(a: string, b: string, c: string)
    requires Leq(a, b) && Leq(b, c)
    ensures Leq(a, c)
  {
    if a != [] && a[0] == b[0] == c[0] {
      LeqTransitive(a[1..], b[1..], c[1..]);
    }
  }

  predicate IsLeast(k: string, s: set<string>) {
    k in s && forall x | x in s :: Leq(k, x)
  }

  lemma {:induction false} LeastExists(s: set<string>) returns (k: string)
    requires s != {}
    ensures IsLeast(k, s)
    decreases |s|
  {
    hide Leq;
    var x :| x in s;
    if s == {x} {
      k := x;
      LeqTotal(x, x);
    } else {
      var rest := s - {x};
      assert s == rest + {x};
      k := LeastExists(rest);
      LeqTotal(k, x);
      LeqTotal(x, x);
      if !Leq(k, x) {
        forall y | y in s
          ensures Leq(x, y)
        {
          if y != x {
            LeqTransitive(x, k, y);
          }
        }
        k := x;
      }
    }
  }

  function Least(s: set<string>): (k: string)
    requires s != {}
    ensures IsLeast(k, s)
  {
    hide Leq;
    assert exists k :: IsLeast(k, s) by {
      var k := LeastExists(s);
    }
    assert forall a, b | IsLeast(a, s) && IsLeast(b, s) :: a == b by {
      forall a, b | IsLeast(a, s) && IsLeast(b, s)
        ensures a == b
      {
        LeqAntisymmetric(a, b);
      }
    }
    var k :| k in s && IsLeast(k, s);
    k
  }

  /** The elements of a set in ascending order. */
  function Ascending(s: set<string>): (r: seq<string>)
    ensures |r| == |s|
    ensures forall x :: x in r <==> x in s
    decreases |s|
  {
    if s == {} then []
    else
      var k := Least(s);
      assert s == (s - {k}) + {k};
      [k] + Ascending(s - {k})
  }

  predicate StrictlyAscending(r: seq<string>) {
    forall i, j | 0 <= i < j < |r| :: Leq(r[i], r[j]) && r[i] != r[j]
  }

  lemma AscendingMore(k: string, rest: seq<string>)
    requires StrictlyAscending(rest) && forall x | x in rest :: Leq(k, x) && k != x
    ensures StrictlyAscending([k] + rest)
  {
    hide Leq;
    var r := [k] + rest;
    forall i, j | 0 <= i < j < |r|
      ensures Leq(r[i], r[j]) && r[i] != r[j]
    {
      assert r[j] == rest[j - 1] && r[j] in rest;
      assert i > 0 ==> r[i] == rest[i - 1];
    }
  }

  lemma {:induction false} AscendingSorted(s: set<string>)
    ensures StrictlyAscending(Ascending(s))
    decreases |s|
  {
    hide Leq, StrictlyAscending;
    if s == {} {
      AscendingNone();
    } else {
      var k := Least(s);
      AscendingSorted(s - {k});
      AscendingMore(k, Ascending(s - {k}));
    }
  }

  lemma AscendingNone()
    ensures StrictlyAscending([])
  {
  }
}
