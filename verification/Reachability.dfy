/** Reachability along a relation, by explicit paths. */
module Reachability {

  ghost predicate IsPath<T(!new)>(edge: (T, T) -> bool, path: seq<T>) {
    && path != []
    && forall k :: 0 < k < |path| ==> edge(path[k - 1], path[k])
  }

  ghost predicate Connects<T(!new)>(edge: (T, T) -> bool, path: seq<T>, a: T, b: T) {
    IsPath(edge, path) && path[0] == a && path[|path| - 1] == b
  }

  ghost predicate Reaches<T(!new)>(edge: (T, T) -> bool, a: T, b: T) {
    exists path :: Connects(edge, path, a, b)
  }

  lemma ReachesSelf<T(!new)>(edge: (T, T) -> bool, a: T)
    ensures Reaches(edge, a, a)
  {
    assert Connects(edge, [a], a, a);
  }

  lemma ReachesBefore<T(!new)>(edge: (T, T) -> bool, a: T, b: T, c: T)
    requires edge(a, b) && Reaches(edge, b, c)
    ensures Reaches(edge, a, c)
  {
    var path :| Connects(edge, path, b, c);
    assert Connects(edge, [a] + path, a, c);
  }

  lemma ReachesAfter<T(!new)>(edge: (T, T) -> bool, a: T, b: T, c: T)
    requires Reaches(edge, a, b) && edge(b, c)
    ensures Reaches(edge, a, c)
  {
    var path :| Connects(edge, path, a, b);
    assert Connects(edge, path + [c], a, c);
  }

  lemma ReachesThrough<T(!new)>(edge: (T, T) -> bool, a: T, b: T, c: T)
    requires Reaches(edge, a, b) && Reaches(edge, b, c)
    ensures Reaches(edge, a, c)
  {
    var first :| Connects(edge, first, a, b);
    var second :| Connects(edge, second, b, c);
    var path := first + second[1..];
    forall k | 0 < k < |path|
      ensures edge(path[k - 1], path[k])
    {
      if k >= |first| {
        assert edge(second[k - |first|], second[k - |first| + 1]);
      }
    }
    assert Connects(edge, path, a, c);
  }

  lemma SameReach<T(!new)>(edge: (T, T) -> bool, same: (T, T) -> bool, a: T, b: T)
    requires forall x, y :: edge(x, y) <==> same(x, y)
    ensures Reaches(edge, a, b) <==> Reaches(same, a, b)
  {
    if path :| Connects(edge, path, a, b) {
      assert Connects(same, path, a, b);
    }
    if path :| Connects(same, path, a, b) {
      assert Connects(edge, path, a, b);
    }
  }

  /** What is reachable from `a` lies in every set that holds `a` and is closed under the relation. */
  lemma {:induction false} ReachesIsLeast<T(!new)>(edge: (T, T) -> bool, path: seq<T>, a: T, b: T, closed: iset<T>)
    requires Connects(edge, path, a, b)
    requires a in closed && forall x, y :: x in closed && edge(x, y) ==> y in closed
    ensures b in closed
  {
    if |path| > 1 {
      var shorter := path[..|path| - 1];
      ReachesIsLeast(edge, shorter, a, shorter[|shorter| - 1], closed);
      assert edge(path[|path| - 2], path[|path| - 1]);
    }
  }
}
