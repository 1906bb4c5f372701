/** A kid's task list: the kid's task rows, sorted by `order` and projected
    to the fields the listing shows; and the bulk removal a goal reset does. */
module TaskList {
  import opened Records

  /** What the listing shows of a task. */
  datatype TaskView = TaskView(id: nat, text: string, done: bool)

  function View(t: Task): TaskView {
    TaskView(t.id, t.text, t.done)
  }

  function Views(ts: seq<Task>): (r: seq<TaskView>)
    ensures |r| == |ts|
    ensures forall i :: 0 <= i < |ts| ==> r[i] == View(ts[i])
  {
    seq(|ts|, i requires 0 <= i < |ts| => View(ts[i]))
  }

  /** The task rows of kid `kidId`, in store order. */
  function KidTasks(tasks: seq<Task>, kidId: nat): (r: seq<Task>)
    ensures forall t :: t in r <==> t in tasks && t.kidId == kidId
  {
    if |tasks| == 0 then []
    else (if tasks[0].kidId == kidId then [tasks[0]] else []) + KidTasks(tasks[1..], kidId)
  }

  /** The task rows of every other kid, in store order. */
  function WithoutKidTasks(tasks: seq<Task>, kidId: nat): (r: seq<Task>)
    ensures forall t :: t in r <==> t in tasks && t.kidId != kidId
  {
    if |tasks| == 0 then []
    else (if tasks[0].kidId != kidId then [tasks[0]] else []) + WithoutKidTasks(tasks[1..], kidId)
  }

  /** A kid's rows are each of that kid's stored rows, as often as it is
      stored, and nothing else. */
  lemma {:induction false} KidTasksCounts(tasks: seq<Task>, kidId: nat)
    ensures forall t :: multiset(KidTasks(tasks, kidId))[t] ==
                        if t.kidId == kidId then multiset(tasks)[t] else 0
  {
    if |tasks| > 0 {
      KidTasksCounts(tasks[1..], kidId);
      assert tasks == [tasks[0]] + tasks[1..];
    }
  }

  /** The rows kept by the bulk delete are each row of another kid, as often
      as it is stored, and nothing else. */
  lemma {:induction false} WithoutKidTasksCounts(tasks: seq<Task>, kidId: nat)
    ensures forall t :: multiset(WithoutKidTasks(tasks, kidId))[t] ==
                        if t.kidId != kidId then multiset(tasks)[t] else 0
  {
    if |tasks| > 0 {
      WithoutKidTasksCounts(tasks[1..], kidId);
      assert tasks == [tasks[0]] + tasks[1..];
    }
  }

  predicate SortedByOrder(ts: seq<Task>) {
    forall i, j :: 0 <= i < j < |ts| ==> ts[i].order <= ts[j].order
  }

  /** `t` placed before the first task of a larger or equal order. */
  function InsertByOrder(t: Task, ts: seq<Task>): (r: seq<Task>)
    ensures |r| == |ts| + 1
    ensures multiset(r) == multiset(ts) + multiset{t}
  {
    if |ts| == 0 then [t]
    else if t.order <= ts[0].order then [t] + ts
    else
      assert ts == [ts[0]] + ts[1..];
      [ts[0]] + InsertByOrder(t, ts[1..])
  }

  /** Inserting into a sorted list keeps it sorted. */
  lemma {:induction false} InsertByOrderSorted(t: Task, ts: seq<Task>)
    requires SortedByOrder(ts)
    ensures SortedByOrder(InsertByOrder(t, ts))
  {
    if |ts| > 0 && t.order > ts[0].order {
      var rest := InsertByOrder(t, ts[1..]);
      InsertByOrderSorted(t, ts[1..]);
      forall x | x in rest ensures ts[0].order <= x.order {
        assert x in multiset(rest);
        if x != t {
          assert x in multiset(ts[1..]);
        }
      }
      assert InsertByOrder(t, ts) == [ts[0]] + rest;
    }
  }

  /** The tasks sorted by `order`, as `sorted(..., key=order)` returns them. */
  function SortByOrder(ts: seq<Task>): (r: seq<Task>)
    ensures |r| == |ts|
    ensures SortedByOrder(r)
    ensures multiset(r) == multiset(ts)
  {
    if |ts| == 0 then []
    else
      assert ts == [ts[0]] + ts[1..];
      InsertByOrderSorted(ts[0], SortByOrder(ts[1..]));
      InsertByOrder(ts[0], SortByOrder(ts[1..]))
  }

  /** The listing the GET handler returns for kid `kidId`. */
  function ListTasks(tasks: seq<Task>, kidId: nat): (r: seq<TaskView>)
    ensures |r| == |KidTasks(tasks, kidId)|
  {
    Views(SortByOrder(KidTasks(tasks, kidId)))
  }

  /** The listing is the view of an arrangement of exactly the kid's tasks
      that is non-decreasing in `order`. */
  lemma ListTasksSpec(tasks: seq<Task>, kidId: nat)
    ensures exists s: seq<Task> :: SortedByOrder(s) &&
                        (forall t: Task :: multiset(s)[t] == if t.kidId == kidId then multiset(tasks)[t] else 0) &&
                        ListTasks(tasks, kidId) == Views(s)
  {
    var s := SortByOrder(KidTasks(tasks, kidId));
    KidTasksCounts(tasks, kidId);
    assert SortedByOrder(s) && multiset(s) == multiset(KidTasks(tasks, kidId));
  }

  /** Every task of the kid shows up in the kid's listing. */
  lemma ListTasksShows(tasks: seq<Task>, t: Task)
    requires t in tasks
    ensures View(t) in ListTasks(tasks, t.kidId)
  {
    var s := SortByOrder(KidTasks(tasks, t.kidId));
    assert t in multiset(s);
    var i :| 0 <= i < |s| && s[i] == t;
    assert ListTasks(tasks, t.kidId)[i] == View(t);
  }

  /** A created task joins its kid's rows at the end, and no other kid's. */
  lemma {:induction false} KidTasksAppend(tasks: seq<Task>, t: Task, kidId: nat)
    ensures KidTasks(tasks + [t], kidId) ==
      KidTasks(tasks, kidId) + (if t.kidId == kidId then [t] else [])
  {
    if |tasks| > 0 {
      assert (tasks + [t])[1..] == tasks[1..] + [t];
      KidTasksAppend(tasks[1..], t, kidId);
    } else {
      assert [t][1..] == [];
    }
  }

  /** After a goal reset by POST the kid has no tasks left. */
  lemma {:induction false} ResetLeavesNoTasks(tasks: seq<Task>, kidId: nat)
    ensures KidTasks(WithoutKidTasks(tasks, kidId), kidId) == []
  {
    if |tasks| > 0 {
      ResetLeavesNoTasks(tasks[1..], kidId);
      var rest := WithoutKidTasks(tasks[1..], kidId);
      if tasks[0].kidId == kidId {
        assert WithoutKidTasks(tasks, kidId) == rest;
      } else {
        var w := [tasks[0]] + rest;
        assert WithoutKidTasks(tasks, kidId) == w && w[1..] == rest;
      }
    }
  }

  /** A goal reset by POST leaves every other kid's tasks as they were. */
  lemma {:induction false} ResetKeepsOtherKids(tasks: seq<Task>, kidId: nat, other: nat)
    requires other != kidId
    ensures KidTasks(WithoutKidTasks(tasks, kidId), other) == KidTasks(tasks, other)
  {
    if |tasks| > 0 {
      ResetKeepsOtherKids(tasks[1..], kidId, other);
      var rest := WithoutKidTasks(tasks[1..], kidId);
      if tasks[0].kidId == kidId {
        assert WithoutKidTasks(tasks, kidId) == rest;
      } else {
        var w := [tasks[0]] + rest;
        assert WithoutKidTasks(tasks, kidId) == w && w[1..] == rest;
      }
    }
  }

  lemma ExampleKidTasks(t1: Task, t2: Task, t3: Task)
    requires t1.kidId == t2.kidId == t3.kidId
    ensures KidTasks([t1, t2, t3], t1.kidId) == [t1, t2, t3]
  {
    assert [t1, t2, t3][1..] == [t2, t3] && [t2, t3][1..] == [t3] && [t3][1..] == [];
    assert KidTasks([t3], t1.kidId) == [t3];
    assert KidTasks([t2, t3], t1.kidId) == [t2, t3];
  }

  lemma ExampleSort(t1: Task, t2: Task, t3: Task)
    requires t2.order < t3.order < t1.order
    ensures SortByOrder([t1, t2, t3]) == [t2, t3, t1]
  {
    assert [t1, t2, t3][1..] == [t2, t3] && [t2, t3][1..] == [t3] && [t3][1..] == [];
    assert SortByOrder([t3]) == [t3];
    assert SortByOrder([t2, t3]) == [t2, t3];
    assert InsertByOrder(t1, [t3]) == [t3, t1];
    assert InsertByOrder(t1, [t2, t3]) == [t2] + InsertByOrder(t1, [t3]);
    assert SortByOrder([t1, t2, t3]) == InsertByOrder(t1, SortByOrder([t2, t3]));
  }

  /** Three tasks of one kid created with orders 2, 0, 1 (as in t1, t2, t3)
      are listed in the order 0, 1, 2. */
  lemma ListedByOrder(t1: Task, t2: Task, t3: Task)
    requires t1.kidId == t2.kidId == t3.kidId
    requires t1.order == 2 && t2.order == 0 && t3.order == 1
    ensures ListTasks([t1, t2, t3], t1.kidId) == [View(t2), View(t3), View(t1)]
  {
    ExampleKidTasks(t1, t2, t3);
    ExampleSort(t1, t2, t3);
  }
}
