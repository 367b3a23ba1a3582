/** Counting the agents that satisfy a test, the way the passes accumulate
    `alive_civilians`, `rescued` and the `map_agents` counter, and the
    schedules along which an OpenMP `parallel for` may visit the indices. */
module Counting {

  /** Number of elements of `s` that satisfy `P`, counted front to back. */
  function Count<T>(s: seq<T>, P: T -> bool): (n: nat)
    ensures n <= |s|
  {
    if |s| == 0 then 0 else Count(s[..|s| - 1], P) + (if P(s[|s| - 1]) then 1 else 0)
  }

  /** Counting one element further along. */
  lemma CountPrefix<T>(s: seq<T>, P: T -> bool, i: nat)
    requires i < |s|
    ensures Count(s[..i + 1], P) == Count(s[..i], P) + (if P(s[i]) then 1 else 0)
  {
    assert s[..i + 1][..i] == s[..i];
  }

  /** The count is zero exactly when no element satisfies the test. */
  lemma {:induction false} CountZeroIff<T>(s: seq<T>, P: T -> bool)
    ensures Count(s, P) == 0 <==> forall i :: 0 <= i < |s| ==> !P(s[i])
  {
    if |s| > 0 {
      var front := s[..|s| - 1];
      CountZeroIff(front, P);
      assert forall i :: 0 <= i < |front| ==> front[i] == s[i];
    }
  }

  /** The indices of the elements that satisfy the test. */
  function Where<T>(s: seq<T>, P: T -> bool): set<nat>
  {
    set i: nat | i < |s| && P(s[i])
  }

  /** Counting is the size of the set of satisfying indices, so it does not
      depend on the order in which the elements are visited. */
  lemma {:induction false} CountIsCardinality<T>(s: seq<T>, P: T -> bool)
    ensures Count(s, P) == |Where(s, P)|
  {
    if |s| > 0 {
      var last := |s| - 1;
      var front := s[..last];
      CountIsCardinality(front, P);
      assert forall i :: 0 <= i < |front| ==> front[i] == s[i];
      if P(s[last]) {
        assert Where(s, P) == Where(front, P) + {last};
      } else {
        assert Where(s, P) == Where(front, P);
      }
    }
  }

  /** If each element of `s` satisfies `P` exactly when the matching element
      of `t` satisfies `Q` or (exclusively) it satisfies `R`, the counts add up. */
  lemma {:induction false} CountSplit<T, U>(s: seq<T>, t: seq<U>, P: T -> bool, Q: U -> bool, R: T -> bool)
    requires |s| == |t|
    requires forall i :: 0 <= i < |s| ==> (P(s[i]) <==> Q(t[i]) || R(s[i]))
    requires forall i :: 0 <= i < |s| ==> !(Q(t[i]) && R(s[i]))
    ensures Count(s, P) == Count(t, Q) + Count(s, R)
  {
    if |s| > 0 {
      var n := |s| - 1;
      assert forall i :: 0 <= i < n ==> s[..n][i] == s[i] && t[..n][i] == t[i];
      CountSplit(s[..n], t[..n], P, Q, R);
    }
  }

  /** Counts agree when the elements of two equally long sequences satisfy
      their tests at the same positions. */
  lemma {:induction false} CountSame<T, U>(s: seq<T>, t: seq<U>, P: T -> bool, Q: U -> bool)
    requires |s| == |t|
    requires forall i :: 0 <= i < |s| ==> (P(s[i]) <==> Q(t[i]))
    ensures Count(s, P) == Count(t, Q)
  {
    if |s| > 0 {
      var n := |s| - 1;
      assert forall i :: 0 <= i < n ==> s[..n][i] == s[i] && t[..n][i] == t[i];
      CountSame(s[..n], t[..n], P, Q);
    }
  }

  /** The index order 0, 1, ..., n-1 of a sequential loop. */
  function Indices(n: nat): (o: seq<nat>)
    ensures |o| == n && forall k :: 0 <= k < n ==> o[k] == k
  {
    seq(n, k requires 0 <= k < n => k)
  }

  /** An order in which a `parallel for` may run the iterations 0 .. n-1:
      every index exactly once. */
  predicate IsSchedule(order: seq<nat>, n: nat)
  {
    |order| == n &&
    (forall k :: 0 <= k < n ==> order[k] < n) &&
    (forall j, k :: 0 <= j < k < n ==> order[j] != order[k]) &&
    (forall i :: 0 <= i < n ==> i in order)
  }

  lemma IndicesIsSchedule(n: nat)
    ensures IsSchedule(Indices(n), n)
  {
    var o := Indices(n);
    forall i | 0 <= i < n ensures i in o {
      assert o[i] == i;
    }
  }

  /** The indices a schedule has visited after its first `k` iterations. */
  function Visited(order: seq<nat>, k: nat): set<nat>
    requires k <= |order|
  {
    set j | 0 <= j < k :: order[j]
  }

  /** Each iteration of a schedule visits an index not visited before, and
      after all of them every index has been visited. */
  lemma VisitedSnoc(order: seq<nat>, n: nat, k: nat)
    requires IsSchedule(order, n) && k < n
    ensures order[k] !in Visited(order, k)
    ensures Visited(order, k + 1) == Visited(order, k) + {order[k]}
  {
  }

  lemma VisitedAll(order: seq<nat>, n: nat)
    requires IsSchedule(order, n)
    ensures forall i :: 0 <= i < n ==> i in Visited(order, n)
  {
    forall i | 0 <= i < n ensures i in Visited(order, n) {
      assert i in order;
      var j :| 0 <= j < n && order[j] == i;
    }
  }

  /** The satisfying indices among the visited ones. */
  function WhereIn<T>(s: seq<T>, P: T -> bool, visited: set<nat>): set<nat>
  {
    set i | i in visited && i < |s| && P(s[i])
  }

  /** Visiting one more index adds it to the set exactly when it satisfies the test. */
  lemma WhereInAdd<T>(s: seq<T>, P: T -> bool, visited: set<nat>, j: nat)
    requires j < |s| && j !in visited
    ensures |WhereIn(s, P, visited + {j})| == |WhereIn(s, P, visited)| + (if P(s[j]) then 1 else 0)
  {
    assert WhereIn(s, P, visited + {j}) == WhereIn(s, P, visited) + (if P(s[j]) then {j} else {});
  }

  /** Once every index has been visited the satisfying visited indices number
      exactly the count. */
  lemma WhereInAll<T>(s: seq<T>, P: T -> bool, visited: set<nat>)
    requires forall i :: 0 <= i < |s| ==> i in visited
    ensures |WhereIn(s, P, visited)| == Count(s, P)
  {
    CountIsCardinality(s, P);
    assert WhereIn(s, P, visited) == Where(s, P);
  }

  /** The array part way through a schedule: visited slots hold their final
      value from `done`, the others still their initial value from `todo`. */
  function Blend<T>(done: seq<T>, todo: seq<T>, visited: set<nat>): (b: seq<T>)
    requires |done| == |todo|
    ensures |b| == |done|
  {
    seq(|done|, j requires 0 <= j < |done| => if j in visited then done[j] else todo[j])
  }

  lemma BlendAdd<T>(done: seq<T>, todo: seq<T>, visited: set<nat>, i: nat)
    requires |done| == |todo| && i < |done|
    ensures Blend(done, todo, visited + {i}) == Blend(done, todo, visited)[i := done[i]]
  {
  }

  lemma BlendEnds<T>(done: seq<T>, todo: seq<T>, visited: set<nat>)
    requires |done| == |todo|
    ensures visited == {} ==> Blend(done, todo, visited) == todo
    ensures (forall i :: 0 <= i < |done| ==> i in visited) ==> Blend(done, todo, visited) == done
  {
  }

  /** The array part way through an index-order loop: the first `i` slots
      already hold their final value from `done`, the rest still their
      initial value from `todo`. */
  function Advance<T>(done: seq<T>, todo: seq<T>, i: nat): (b: seq<T>)
    requires |done| == |todo|
    ensures |b| == |done|
  {
    seq(|done|, j requires 0 <= j < |done| => if j < i then done[j] else todo[j])
  }

  lemma AdvanceStep<T>(done: seq<T>, todo: seq<T>, i: nat)
    requires |done| == |todo| && i < |done|
    ensures Advance(done, todo, i + 1) == Advance(done, todo, i)[i := done[i]]
    ensures Advance(done, todo, i)[i] == todo[i]
  {
  }

  lemma AdvanceEnds<T>(done: seq<T>, todo: seq<T>)
    requires |done| == |todo|
    ensures Advance(done, todo, 0) == todo
    ensures Advance(done, todo, |done|) == done
  {
  }
}
