/** The task list of scheduler.cpp, and the ids it hands out for immediate tasks. */
module ImmediateTasks {
  import opened MachineWords

  const INT_MIN: int := -TWO_31

  /** A task; equality in the source is equality of ids, and -1 is the id of no task. */
  datatype Task = Task(id: int, method_: string, definition: string)

  const INVALID: Task := Task(-1, "", "")

  /** An id that can be handed out. */
  predicate IsFree(ids: set<int>, id: int) {
    INT_MIN < id <= -2 && id !in ids
  }

  /** Ids from -2 down to -1 - k that are all taken are at least k ids. */
  lemma {:induction false} TakenIdsCount(ids: set<int>, k: nat)
    requires forall id :: -1 - k <= id <= -2 ==> id in ids
    ensures k <= |ids|
  {
    if k > 0 {
      TakenIdsCount(ids - {-1 - k}, k - 1);
    }
  }

  /** As long as fewer than 2^31 - 2 ids are taken, one is free. */
  lemma {:induction false} SomeIdIsFree(ids: set<int>)
    requires |ids| < TWO_31 - 2
    ensures exists id :: IsFree(ids, id)
  {
    if forall id :: !IsFree(ids, id) {
      forall id | INT_MIN < id <= -2 ensures id in ids {
        assert !IsFree(ids, id);
      }
      TakenIdsCount(ids, TWO_31 - 2);
    }
  }

  /** The tasks with other ids, in the order they had. */
  function Others(tasks: seq<Task>, id: int): seq<Task> {
    if tasks == [] then []
    else Others(tasks[..|tasks| - 1], id) + if tasks[|tasks| - 1].id == id then [] else [tasks[|tasks| - 1]]
  }

  /** Others takes out the tasks with the id and leaves the order: task by task, and part by part. */
  lemma {:induction false} OthersJoin(a: seq<Task>, b: seq<Task>, id: int)
    ensures Others(a + b, id) == Others(a, id) + Others(b, id)
    ensures |a| == 1 ==> Others(a, id) == if a[0].id == id then [] else a
  {
    if b == [] {
      assert a + b == a;
    } else {
      var most := b[..|b| - 1];
      assert (a + b)[..|a + b| - 1] == a + most;
      OthersJoin(a, most, id);
    }
    if |a| == 1 {
      assert a[..0] == [] && a == [a[0]];
    }
  }

  lemma {:induction false} OthersRemain(tasks: seq<Task>, id: int)
    ensures forall t :: t in Others(tasks, id) <==> t in tasks && t.id != id
    ensures IdsDiffer(tasks) ==> IdsDiffer(Others(tasks, id))
  {
    if tasks != [] {
      var most, last := tasks[..|tasks| - 1], tasks[|tasks| - 1];
      assert tasks == most + [last];
      OthersRemain(most, id);
      forall i | 0 <= i < |Others(most, id)| ensures Others(most, id)[i] in most {
      }
    }
  }

  lemma {:induction false} NoOthers(tasks: seq<Task>, id: int)
    requires forall t <- tasks :: t.id != id
    ensures Others(tasks, id) == tasks
  {
    if tasks != [] {
      var most, last := tasks[..|tasks| - 1], tasks[|tasks| - 1];
      assert tasks == most + [last] && last in tasks;
      NoOthers(most, id);
    }
  }

  ghost predicate IdsDiffer(tasks: seq<Task>) {
    forall i, j :: 0 <= i < j < |tasks| ==> tasks[i].id != tasks[j].id
  }

  class TaskList {
    var tasks: seq<Task>
    var taskIds: set<int>

    /** Every id is listed once, and the set holds exactly the listed ids. */
    ghost predicate Valid()
      reads this
    {
      && IdsDiffer(tasks)
      && (forall t <- tasks :: t.id in taskIds)
      && (forall id <- taskIds :: exists t :: t in tasks && t.id == id)
    }

    constructor ()
      ensures Valid() && tasks == [] && taskIds == {}
    {
      tasks, taskIds := [], {};
    }

    method AddTask(task: Task)
      requires Valid()
      modifies this
      ensures Valid()
      ensures taskIds == old(taskIds) + {task.id}
      ensures tasks == old(tasks) + if task.id in old(taskIds) then [] else [task]
    {
      if task.id !in taskIds {
        tasks := tasks + [task];
        taskIds := taskIds + {task.id};
      }
    }

    /** The first task with the id, or the invalid task. */
    method TaskByTaskId(id: int) returns (t: Task)
      ensures if exists u :: u in tasks && u.id == id then t in tasks && t.id == id else t == Task(-1, "", "")
    {
      for i := 0 to |tasks|
        invariant forall j :: 0 <= j < i ==> tasks[j].id != id
      {
        if tasks[i].id == id {
          return tasks[i];
        }
      }
      return INVALID;
    }

    /** QList::removeAll. */
    method RemoveAll(task: Task)
      modifies this`tasks
      ensures tasks == Others(old(tasks), task.id)
    {
      var kept: seq<Task> := [];
      for i := 0 to |tasks|
        invariant tasks == old(tasks) && kept == Others(tasks[..i], task.id)
      {
        assert tasks[..i + 1][..i] == tasks[..i];
        if tasks[i].id != task.id {
          kept := kept + [tasks[i]];
        }
      }
      assert tasks[..|tasks|] == tasks;
      tasks := kept;
    }

    method RemoveTask(id: int)
      requires Valid()
      modifies this
      ensures Valid()
      ensures taskIds == old(taskIds) - {id}
      ensures tasks == Others(old(tasks), id)
    {
      hide Others, IdsDiffer;
      OthersRemain(tasks, id);
      if id !in taskIds {
        NoOthers(tasks, id);
      }
      if id in taskIds {
        var task := TaskByTaskId(id);
        RemoveAll(task);
        taskIds := taskIds - {id};
      }
    }

    /** A stored immediate task for the method and definition; else a new one with the largest free
        id; else, when no id is left, the invalid task. */
    method NextImmediateTask(method_: string, definition: string) returns (t: Task)
      requires Valid()
      ensures var fitting :=
                exists u :: u in tasks && u.id < -1 && u.method_ == method_ && u.definition == definition;
              && (fitting ==> t in tasks && t != INVALID)
              && (!fitting && t != INVALID ==> IsFree(taskIds, t.id) && forall id :: IsFree(taskIds, id) ==> id <= t.id)
              && (t == INVALID ==> !fitting && forall id :: !IsFree(taskIds, id))
      ensures t != INVALID ==> t.id < -1 && t.method_ == method_ && t.definition == definition
      ensures t !in tasks && t != INVALID ==> -0x8000_0000 < t.id && t.id !in taskIds
      ensures |taskIds| < TWO_31 - 2 ==> t.id < -1
    {
      for i := 0 to |tasks|
        invariant forall j :: 0 <= j < i ==>
                    !(tasks[j].id < -1 && tasks[j].method_ == method_ && tasks[j].definition == definition)
      {
        if tasks[i].id < -1 && tasks[i].method_ == method_ && tasks[i].definition == definition {
          return tasks[i];
        }
      }
      var i := -2;
      while i > INT_MIN
        invariant INT_MIN <= i <= -2
        invariant forall id :: i < id <= -2 ==> id in taskIds
      {
        if i !in taskIds {
          return Task(i, method_, definition);
        }
        i := i - 1;
      }
      if |taskIds| < TWO_31 - 2 {
        SomeIdIsFree(taskIds);
      }
      return INVALID;
    }
  }
}
