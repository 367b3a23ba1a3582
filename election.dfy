/** The distress election of the civilian pass. The buffer starts as the
    sentinel (-1, -1); each surviving civilian, when its iteration runs,
    writes its own position if the first component still reads -1. The
    winner is therefore the first survivor in the order the iterations run:
    index order in the sequential build, the order in which threads enter
    the critical section in the OpenMP builds. */
module Election {
  import opened Grid
  import opened Agents
  import opened Counting

  /** The distress buffer after the iterations have run in the order `order`
      over the post-move population `s`: the position of the first live
      civilian met along `order`, or the sentinel if there is none. */
  function Elect(s: seq<Agent>, order: seq<nat>): Distress
    decreases |order|
  {
    if |order| == 0 then NoDistress
    else if order[0] < |s| && LiveCivilian(s[order[0]]) then Position(s[order[0]])
    else Elect(s, order[1..])
  }

  predicate LiveInGrid(s: seq<Agent>)
  {
    forall i :: 0 <= i < |s| && LiveCivilian(s[i]) ==> AgentInGrid(s[i])
  }

  /** Running one more iteration `j` after `order` is the loop body's
      "write if the first component is still -1". */
  lemma {:induction false} ElectSnoc(s: seq<Agent>, order: seq<nat>, j: nat)
    requires LiveInGrid(s) && j < |s|
    ensures Elect(s, order + [j]) ==
              if Elect(s, order).x == -1 && LiveCivilian(s[j]) then Position(s[j]) else Elect(s, order)
  {
    if |order| == 0 {
      assert Elect(s, order + [j]) == if LiveCivilian(s[j]) then Position(s[j]) else Elect(s, []);
    } else {
      assert (order + [j])[0] == order[0];
      assert (order + [j])[1..] == order[1..] + [j];
      if !(order[0] < |s| && LiveCivilian(s[order[0]])) {
        ElectSnoc(s, order[1..], j);
      }
    }
  }

  /** The election yields the sentinel exactly when no iteration along `order`
      met a live civilian; otherwise it yields the in-grid position of the
      first live civilian along `order`. */
  lemma {:induction false} ElectFindsSurvivor(s: seq<Agent>, order: seq<nat>)
    requires LiveInGrid(s)
    ensures IsSignal(Elect(s, order))
    ensures Elect(s, order) == NoDistress <==>
              forall k :: 0 <= k < |order| && order[k] < |s| ==> !LiveCivilian(s[order[k]])
    ensures Elect(s, order) != NoDistress ==>
              exists k :: 0 <= k < |order| && order[k] < |s| && LiveCivilian(s[order[k]]) &&
                Elect(s, order) == Position(s[order[k]]) &&
                forall k' :: 0 <= k' < k && order[k'] < |s| ==> !LiveCivilian(s[order[k']])
    decreases |order|
  {
    if |order| > 0 {
      var rest := order[1..];
      ElectFindsSurvivor(s, rest);
      assert forall k :: 0 <= k < |rest| ==> rest[k] == order[k + 1];
      if order[0] < |s| && LiveCivilian(s[order[0]]) {
        assert Elect(s, order) == Position(s[order[0]]);
      } else if Elect(s, rest) != NoDistress {
        var k :| 0 <= k < |rest| && rest[k] < |s| && LiveCivilian(s[rest[k]]) &&
          Elect(s, rest) == Position(s[rest[k]]) &&
          forall k' :: 0 <= k' < k && rest[k'] < |s| ==> !LiveCivilian(s[rest[k']]);
        assert order[k + 1] == rest[k];
        assert forall k' :: 0 <= k' < k + 1 && order[k'] < |s| ==> !LiveCivilian(s[order[k']]) by {
          forall k' | 0 <= k' < k + 1 && order[k'] < |s|
            ensures !LiveCivilian(s[order[k']])
          {
            if k' > 0 {
              assert order[k'] == rest[k' - 1];
            }
          }
        }
      } else {
        forall k | 0 <= k < |order| && order[k] < |s|
          ensures !LiveCivilian(s[order[k]])
        {
          if k > 0 {
            assert order[k] == rest[k - 1];
          }
        }
      }
    }
  }

  /** Along a schedule that visits every index once, the winner is some live
      civilian, and the sentinel comes out exactly when none is left. */
  lemma ElectAlongSchedule(s: seq<Agent>, order: seq<nat>)
    requires LiveInGrid(s) && IsSchedule(order, |s|)
    ensures IsSignal(Elect(s, order))
    ensures Elect(s, order) == NoDistress <==> Count(s, LiveCivilian) == 0
    ensures Elect(s, order) != NoDistress ==>
              exists i :: 0 <= i < |s| && LiveCivilian(s[i]) && Elect(s, order) == Position(s[i])
  {
    ElectFindsSurvivor(s, order);
    CountZeroIff(s, LiveCivilian);
    if Elect(s, order) == NoDistress {
      forall i | 0 <= i < |s| ensures !LiveCivilian(s[i]) {
        assert i in order;
        var k :| 0 <= k < |order| && order[k] == i;
      }
    }
  }

  /** In index order the winner is the live civilian of lowest index. */
  lemma ElectInIndexOrder(s: seq<Agent>)
    requires LiveInGrid(s)
    ensures IsSignal(Elect(s, Indices(|s|)))
    ensures Elect(s, Indices(|s|)) == NoDistress <==> Count(s, LiveCivilian) == 0
    ensures Elect(s, Indices(|s|)) != NoDistress ==>
              exists i :: 0 <= i < |s| && LiveCivilian(s[i]) && Elect(s, Indices(|s|)) == Position(s[i]) &&
                forall j :: 0 <= j < i ==> !LiveCivilian(s[j])
  {
    var o := Indices(|s|);
    IndicesIsSchedule(|s|);
    ElectAlongSchedule(s, o);
    ElectFindsSurvivor(s, o);
    if Elect(s, o) != NoDistress {
      var k :| 0 <= k < |o| && o[k] < |s| && LiveCivilian(s[o[k]]) &&
        Elect(s, o) == Position(s[o[k]]) &&
        forall k' :: 0 <= k' < k && o[k'] < |s| ==> !LiveCivilian(s[o[k']]);
      assert forall j :: 0 <= j < k ==> !LiveCivilian(s[j]) by {
        forall j | 0 <= j < k ensures !LiveCivilian(s[j]) {
          assert o[j] == j;
        }
      }
    }
  }

  /** The election run over the civilian pass of `step`, along any schedule:
      the sentinel exactly when no civilian survived the move, and otherwise
      the position of a survivor, which stands off the disaster zone. */
  lemma ElectAfterCivilianPhase(s: seq<Agent>, draws: seq<Draw>, step: nat, order: seq<nat>)
    requires |draws| == |s| && IsSchedule(order, |s|)
    ensures var post := CivilianPhase(s, draws, step);
            IsSignal(Elect(post, order)) &&
            (Elect(post, order) == NoDistress <==> Count(post, LiveCivilian) == 0) &&
            (Elect(post, order) != NoDistress ==>
               exists i :: 0 <= i < |post| && LiveCivilian(post[i]) && Elect(post, order) == Position(post[i]) &&
                 !IsDisasterCell(post[i].x, post[i].y, step))
  {
    var post := CivilianPhase(s, draws, step);
    CivilianPhaseSurvivors(s, draws, step);
    ElectAlongSchedule(post, order);
  }

  /** The same in index order, where the winner is the survivor of lowest index. */
  lemma ElectInIndexOrderAfterCivilianPhase(s: seq<Agent>, draws: seq<Draw>, step: nat)
    requires |draws| == |s|
    ensures var post := CivilianPhase(s, draws, step);
            IsSignal(Elect(post, Indices(|s|))) &&
            (Elect(post, Indices(|s|)) == NoDistress <==> Count(post, LiveCivilian) == 0) &&
            (Elect(post, Indices(|s|)) != NoDistress ==>
               exists i :: 0 <= i < |post| && LiveCivilian(post[i]) && Elect(post, Indices(|s|)) == Position(post[i]) &&
                 !IsDisasterCell(post[i].x, post[i].y, step) && forall j :: 0 <= j < i ==> !LiveCivilian(post[j]))
  {
    var post := CivilianPhase(s, draws, step);
    CivilianPhaseSurvivors(s, draws, step);
    ElectInIndexOrder(post);
  }

  /** Iteration `k` of a schedule, as the counter and the election see it:
      it visits a new index, counts it when it holds a live civilian, and
      elects it when it holds one and the buffer still reads -1. */
  lemma ScheduleIteration(post: seq<Agent>, order: seq<nat>, k: nat)
    requires IsSchedule(order, |post|) && k < |post| && LiveInGrid(post)
    ensures order[k] !in Visited(order, k)
    ensures Visited(order, k + 1) == Visited(order, k) + {order[k]}
    ensures |WhereIn(post, LiveCivilian, Visited(order, k + 1))|
            == |WhereIn(post, LiveCivilian, Visited(order, k))| + (if LiveCivilian(post[order[k]]) then 1 else 0)
    ensures Elect(post, order[..k + 1])
            == if Elect(post, order[..k]).x == -1 && LiveCivilian(post[order[k]]) then Position(post[order[k]])
               else Elect(post, order[..k])
  {
    assert order[..k + 1] == order[..k] + [order[k]];
    VisitedSnoc(order, |post|, k);
    ElectSnoc(post, order[..k], order[k]);
    WhereInAdd(post, LiveCivilian, Visited(order, k), order[k]);
  }

  /** Iteration `i` of an index-order loop, as the counter and the election
      see it. */
  lemma IndexIteration(post: seq<Agent>, i: nat)
    requires i < |post| && LiveInGrid(post)
    ensures Count(post[..i + 1], LiveCivilian) == Count(post[..i], LiveCivilian) + (if LiveCivilian(post[i]) then 1 else 0)
    ensures Elect(post, Indices(i + 1))
            == if Elect(post, Indices(i)).x == -1 && LiveCivilian(post[i]) then Position(post[i])
               else Elect(post, Indices(i))
  {
    assert Indices(i + 1) == Indices(i) + [i];
    ElectSnoc(post, Indices(i), i);
    CountPrefix(post, LiveCivilian, i);
  }
}
