/**
 * Facts about finite collections that the Java code relies on implicitly:
 * the iteration order of a hash set, and the size of a set's image.
 */
module Collections {

  /** Distinct elements listing exactly the members of `s`: one iteration order of a set. */
  ghost predicate Enumerates<T(!new)>(order: seq<T>, s: set<T>)
  {
    && (forall i, j :: 0 <= i < j < |order| ==> order[i] != order[j])
    && (forall x :: x in order <==> x in s)
  }

  /** Some iteration order of `s`. */
  ghost function EnumerationOf<T(!new)>(s: set<T>): (order: seq<T>)
    ensures Enumerates(order, s)
  {
    if s == {} then []
    else
      var x :| x in s;
      [x] + EnumerationOf(s - {x})
  }

  lemma EnumeratesConcat<T(!new)>(p: seq<T>, ps: set<T>, q: seq<T>, qs: set<T>)
    requires Enumerates(p, ps) && Enumerates(q, qs) && ps !! qs
    ensures Enumerates(p + q, ps + qs)
  {
    forall i, j | 0 <= i < j < |p + q|
      ensures (p + q)[i] != (p + q)[j]
    {
      if j < |p| {
      } else if i >= |p| {
        assert (p + q)[i] == q[i - |p|] && (p + q)[j] == q[j - |p|];
      } else {
        assert (p + q)[i] == p[i] && (p + q)[j] == q[j - |p|];
        assert p[i] in ps && q[j - |p|] in qs;
      }
    }
  }

  /** The image of `s` under `f`. */
  function Image<A, B>(s: set<A>, f: A -> B): set<B>
  {
    set x | x in s :: f(x)
  }

  /** An injective image has as many elements as the set; any image has at most as many. */
  lemma {:induction false} ImageSize<A, B>(s: set<A>, f: A -> B)
    ensures |Image(s, f)| <= |s|
    ensures (forall x, y | x in s && y in s && f(x) == f(y) :: x == y) ==> |Image(s, f)| == |s|
    decreases |s|
  {
    if s != {} {
      var x :| x in s;
      var rest := s - {x};
      ImageSize(rest, f);
      if f(x) in Image(rest, f) {
        assert Image(s, f) == Image(rest, f);
        assert x in s && exists y :: y in rest && f(y) == f(x);
      } else {
        assert Image(s, f) == Image(rest, f) + {f(x)};
      }
    } else {
      assert Image(s, f) == {};
    }
  }

  /** An iteration order lists each member once, so it is as long as the set is large. */
  lemma {:induction false} EnumeratesSize<T(!new)>(order: seq<T>, s: set<T>)
    requires Enumerates(order, s)
    ensures |order| == |s|
    decreases |order|
  {
    if |order| == 0 {
      assert s == {};
    } else {
      var last := order[|order| - 1];
      var rest := order[..|order| - 1];
      assert last in s;
      forall x
        ensures x in rest <==> x in s - {last}
      {
        if x in rest {
          var i :| 0 <= i < |rest| && rest[i] == x;
          assert order[i] == x;
        }
        if x in s - {last} {
          assert x in order;
          var i :| 0 <= i < |order| && order[i] == x;
          assert i != |order| - 1;
          assert rest[i] == x;
        }
      }
      EnumeratesSize(rest, s - {last});
    }
  }
}
