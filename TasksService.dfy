/**
 * `TaskService`: task lookup, paged listing, creation, and the ownership-checked
 * update and delete. The task table is held by the service object as its rows
 * in insertion order; `nextId` stands for the database's id sequence.
 */
module TasksService {
  import opened Wrappers
  import opened BaseExceptions
  import opened TasksSchemas
  import opened TasksModels
  import opened TaskStore

  /** `schema.model_dump()`: every field of the update schema, id first, unset ones as None. */
  function ModelDump(schema: UpdateTaskSchema): (kwargs: seq<Kwarg>)
    ensures DistinctKeys(kwargs)
    ensures forall i :: 0 <= i < |kwargs| ==> kwargs[i].Key() != UserId
  {
    [SetId(schema.id), SetTitle(schema.title), SetDescription(schema.description), SetStatus(schema.status)]
  }

  /** `schema.model_dump(exclude_unset=True)`: the id and only the fields that were given. */
  function ModelDumpExcludeUnset(schema: UpdateTaskSchema): (kwargs: seq<Kwarg>)
    ensures DistinctKeys(kwargs)
    ensures forall i :: 0 <= i < |kwargs| ==> kwargs[i].Key() != UserId
    ensures forall i :: 0 <= i < |kwargs| ==> kwargs[i].Val() != TextValue(None) && kwargs[i].Val() != StatusValue(None)
  {
    [SetId(schema.id)]
    + (if schema.title.Some? then [SetTitle(schema.title)] else [])
    + (if schema.description.Some? then [SetDescription(schema.description)] else [])
    + (if schema.status.Some? then [SetStatus(schema.status)] else [])
  }

  /**
   * As written, a successful update overwrites title, description and status
   * with the schema's, None included, and keeps id and owner.
   */
  lemma UpdateOverwritesAllFields(t: TaskRecord, schema: UpdateTaskSchema)
    requires t.id == schema.id
    ensures ApplyAll(t, ModelDump(schema))
         == TaskRecord(t.id, schema.title, schema.description, schema.status, t.userId)
  {
    var k0, k1, k2, k3 := SetId(schema.id), SetTitle(schema.title), SetDescription(schema.description), SetStatus(schema.status);
    assert ModelDump(schema) == [k0, k1, k2] + [k3];
    assert [k0, k1, k2] == [k0, k1] + [k2];
    assert [k0, k1] == [k0] + [k1];
    assert [k0][..0] == [];
    ApplyAllConcat(t, [SetId(schema.id), SetTitle(schema.title), SetDescription(schema.description)], [SetStatus(schema.status)]);
    ApplyAllConcat(t, [SetId(schema.id), SetTitle(schema.title)], [SetDescription(schema.description)]);
    ApplyAllConcat(t, [SetId(schema.id)], [SetTitle(schema.title)]);
  }

  /** Example: an update naming only the status erases the title of task 1. */
  lemma UpdateErasesUnsetTitle()
    ensures var t := TaskRecord(1, Some("T"), Some("D"), Some(New), 7);
            ApplyAll(t, ModelDump(UpdateTaskSchema(1, status := Some(Completed)))).title == None
  {
    UpdateOverwritesAllFields(TaskRecord(1, Some("T"), Some("D"), Some(New), 7), UpdateTaskSchema(1, status := Some(Completed)));
  }

  /** With `exclude_unset`, only the given fields change; the others, id and owner keep their values. */
  lemma {:induction false} PartialUpdateKeepsUnsetFields(t: TaskRecord, schema: UpdateTaskSchema)
    requires t.id == schema.id
    ensures ApplyAll(t, ModelDumpExcludeUnset(schema))
         == TaskRecord(t.id,
                       if schema.title.Some? then schema.title else t.title,
                       if schema.description.Some? then schema.description else t.description,
                       if schema.status.Some? then schema.status else t.status,
                       t.userId)
  {
    var p0: seq<Kwarg> := [SetId(schema.id)];
    var p1: seq<Kwarg> := if schema.title.Some? then [SetTitle(schema.title)] else [];
    var p2: seq<Kwarg> := if schema.description.Some? then [SetDescription(schema.description)] else [];
    var p3: seq<Kwarg> := if schema.status.Some? then [SetStatus(schema.status)] else [];
    ApplyAllConcat(t, p0 + p1 + p2, p3);
    ApplyAllConcat(t, p0 + p1, p2);
    ApplyAllConcat(t, p0, p1);
    assert p0[..0] == [];
    assert ModelDumpExcludeUnset(schema) == p0 + p1 + p2 + p3;
  }

  /** The query `get_tasks` sends: offset `(page - 1) * elements_per_page`, limit `elements_per_page`. */
  function TasksQuery(page: int, status: Option<string>, elementsPerPage: int): (q: PageQuery)
    ensures q.userId.None? && q.status == status && q.limit == elementsPerPage
    ensures q.offset + q.limit == page * elementsPerPage
    ensures page >= 1 && elementsPerPage >= 0 ==> q.offset >= 0
  {
    PageQuery((page - 1) * elementsPerPage, elementsPerPage, None, status)
  }

  /** The query `get_user_tasks` sends: the same page arithmetic, restricted to one owner. */
  function UserTasksQuery(userId: int, status: Option<string>, page: int, elementsPerPage: int): (q: PageQuery)
    ensures q.userId == Some(userId) && q.status == status && q.limit == elementsPerPage
    ensures q.offset + q.limit == page * elementsPerPage
    ensures page >= 1 && elementsPerPage >= 0 ==> q.offset >= 0
  {
    PageQuery((page - 1) * elementsPerPage, elementsPerPage, Some(userId), status)
  }

  /** Page 2 with five per page asks for offset 5 and limit 5; the defaults ask for the first ten. */
  lemma PageArithmetic()
    ensures TasksQuery(2, None, 5) == PageQuery(5, 5, None, None)
    ensures TasksQuery(1, None, 10) == PageQuery(0, 10, None, None)
  {
  }

  class TaskService {
    var rows: seq<Task>
    var nextId: int

    /** Ids increase along the table and are all below the next id the sequence hands out. */
    ghost predicate Valid()
      reads this, rows
    {
      && (forall i, j :: 0 <= i < j < |rows| ==> rows[i].id < rows[j].id)
      && (forall i :: 0 <= i < |rows| ==> rows[i].id < nextId)
    }

    /** The value of the table. */
    function View(): (v: seq<TaskRecord>)
      reads this, rows
      ensures |v| == |rows|
    {
      seq(|rows|, i reads this, rows requires 0 <= i < |rows| => rows[i].View())
    }

    constructor ()
      ensures Valid() && rows == [] && View() == [] && nextId == 1
    {
      rows, nextId := [], 1;
    }

    /** `get_task`: the stored task object with that id, or NotFound. */
    function GetTask(taskId: int): (r: Result<Task, HttpError>)
      reads this, rows
      ensures r.Failure? <==> forall t :: t in View() ==> t.id != taskId
      ensures r.Failure? ==> r.error == NotFoundException("Task not found")
      ensures r.Success? ==> r.value in rows && r.value.id == taskId && r.value.View() in View()
    {
      match IndexOf(View(), taskId)
      case None => Failure(NotFoundException("Task not found"))
      case Some(i) => Success(rows[i])
    }

    /**
     * `get_tasks`: one page of the whole table, or of the tasks with the given
     * status. The database refuses a negative offset or limit.
     */
    function GetTasks(page: int := 1, status: Option<string> := None, elementsPerPage: int := 10): (r: Option<seq<TaskRecord>>)
      reads this, rows
      ensures r.Some? <==> (page - 1) * elementsPerPage >= 0 && elementsPerPage >= 0
      ensures r.Some? ==> |r.value| <= elementsPerPage
      ensures r.Some? ==> forall t :: t in r.value ==>
                t in View() && (status.Some? ==> t.status.Some? && t.status.value.Value() == status.value)
      ensures r.Some? ==>
                r.value == Window(Matching(View(), TasksQuery(page, status, elementsPerPage)), (page - 1) * elementsPerPage, elementsPerPage)
      ensures r.Some? && status.None? ==>
                r.value == Window(View(), (page - 1) * elementsPerPage, elementsPerPage)
    {
      SelectSound(View(), TasksQuery(page, status, elementsPerPage));
      Select(View(), TasksQuery(page, status, elementsPerPage))
    }

    /** `get_user_tasks`: one page of the tasks owned by `userId`, optionally of one status. */
    function GetUserTasks(userId: int, status: Option<string> := None, page: int := 1, elementsPerPage: int := 10): (r: Option<seq<TaskRecord>>)
      reads this, rows
      ensures r.Some? <==> (page - 1) * elementsPerPage >= 0 && elementsPerPage >= 0
      ensures r.Some? ==> |r.value| <= elementsPerPage
      ensures r.Some? ==> forall t :: t in r.value ==>
                t in View() && t.userId == userId
                && (status.Some? ==> t.status.Some? && t.status.value.Value() == status.value)
      ensures r.Some? ==>
                r.value == Window(Matching(View(), UserTasksQuery(userId, status, page, elementsPerPage)), (page - 1) * elementsPerPage, elementsPerPage)
    {
      SelectSound(View(), UserTasksQuery(userId, status, page, elementsPerPage));
      Select(View(), UserTasksQuery(userId, status, page, elementsPerPage))
    }

    /** `create_task`: a new task with the schema's fields, owned by the caller, appended to the table. */
    method CreateTask(schema: CreateTaskSchema, userId: int) returns (task: Task)
      requires Valid()
      modifies this
      ensures Valid() && fresh(task) && nextId == old(nextId) + 1
      ensures task.View() == TaskRecord(old(nextId), Some(schema.title), Some(schema.description), Some(schema.status), userId)
      ensures rows == old(rows) + [task]
      ensures View() == old(View()) + [task.View()]
    {
      task := new Task(TaskRecord(nextId, Some(schema.title), Some(schema.description), Some(schema.status), userId));
      rows := rows + [task];
      nextId := nextId + 1;
      assert View() == old(View()) + [task.View()] by {
        forall k | 0 <= k < |rows| ensures View()[k] == (old(View()) + [task.View()])[k] {}
      }
    }

    /**
     * The check-then-act ladder of `update_task`: NotFound, then Unauthorized for
     * another owner's task, then `task.update(**kwargs)` on the stored object.
     */
    method UpdateWith(taskId: int, userId: int, kwargs: seq<Kwarg>) returns (r: Result<Task, HttpError>)
      requires Valid() && DistinctKeys(kwargs)
      requires forall i :: 0 <= i < |kwargs| ==> kwargs[i].Key() != UserId
      requires forall i :: 0 <= i < |kwargs| ==> kwargs[i].Key() == Id ==> kwargs[i] == SetId(taskId)
      modifies rows
      ensures Valid() && rows == old(rows) && nextId == old(nextId)
      ensures old(Lookup(View(), taskId)).None? ==>
                r == Failure(NotFoundException("Task not found")) && View() == old(View())
      ensures old(Lookup(View(), taskId)).Some? && old(Lookup(View(), taskId)).value.userId != userId ==>
                r == Failure(UnauthorizedException("User not authorized to update this task")) && View() == old(View())
      ensures old(Lookup(View(), taskId)).Some? && old(Lookup(View(), taskId)).value.userId == userId ==>
                && r.Success? && r.value in rows
                && r.value.View() == ApplyAll(old(Lookup(View(), taskId)).value, kwargs)
                && View() == Replace(old(View()), taskId, r.value.View())
    {
      var before := View();
      var idx := IndexOf(before, taskId);
      if idx.None? {
        return Failure(NotFoundException("Task not found"));
      }
      var i := idx.value;
      var task := rows[i];
      if task.userId != userId {
        return Failure(UnauthorizedException("User not authorized to update this task"));
      }
      task.Update(kwargs);
      var after := task.View();
      UpdateKeepsOtherFields(before[i], kwargs, UserId);
      if exists j :: 0 <= j < |kwargs| && kwargs[j].Key() == Id {
        var j :| 0 <= j < |kwargs| && kwargs[j].Key() == Id;
        ApplyAllField(before[i], kwargs, Id);
        UpdateSetsEveryKey(before[i], kwargs, j);
      } else {
        UpdateKeepsOtherFields(before[i], kwargs, Id);
      }
      assert after.id == taskId && after.userId == before[i].userId;
      forall k | 0 <= k < |rows| && k != i ensures rows[k] != task && rows[k].View() == before[k] {
        assert before[k].id != before[i].id;
      }
      assert View() == Replace(before, taskId, after) by {
        forall k | 0 <= k < |rows| ensures View()[k] == Replace(before, taskId, after)[k] {
          if k != i { assert before[k].id != taskId; }
        }
      }
      r := Success(task);
    }

    /**
     * `update_task`, as written: the whole schema is dumped, so title, description
     * and status all take the schema's values, None for a field that was not given.
     */
    method UpdateTask(schema: UpdateTaskSchema, userId: int) returns (r: Result<Task, HttpError>)
      requires Valid()
      modifies rows
      ensures Valid() && rows == old(rows) && nextId == old(nextId)
      ensures old(Lookup(View(), schema.id)).None? ==>
                r == Failure(NotFoundException("Task not found")) && View() == old(View())
      ensures old(Lookup(View(), schema.id)).Some? && old(Lookup(View(), schema.id)).value.userId != userId ==>
                r == Failure(UnauthorizedException("User not authorized to update this task")) && View() == old(View())
      ensures old(Lookup(View(), schema.id)).Some? && old(Lookup(View(), schema.id)).value.userId == userId ==>
                && r.Success? && r.value in rows
                && r.value.View() == TaskRecord(schema.id, schema.title, schema.description, schema.status, userId)
                && View() == Replace(old(View()), schema.id, r.value.View())
    {
      ghost var found := Lookup(View(), schema.id);
      r := UpdateWith(schema.id, userId, ModelDump(schema));
      if found.Some? && found.value.userId == userId {
        UpdateOverwritesAllFields(found.value, schema);
      }
    }

    /** `update_task` with `model_dump(exclude_unset=True)`: fields not given keep their values. */
    method UpdateTaskExcludeUnset(schema: UpdateTaskSchema, userId: int) returns (r: Result<Task, HttpError>)
      requires Valid()
      modifies rows
      ensures Valid() && rows == old(rows) && nextId == old(nextId)
      ensures old(Lookup(View(), schema.id)).None? ==>
                r == Failure(NotFoundException("Task not found")) && View() == old(View())
      ensures old(Lookup(View(), schema.id)).Some? && old(Lookup(View(), schema.id)).value.userId != userId ==>
                r == Failure(UnauthorizedException("User not authorized to update this task")) && View() == old(View())
      ensures old(Lookup(View(), schema.id)).Some? && old(Lookup(View(), schema.id)).value.userId == userId ==>
                var t := old(Lookup(View(), schema.id)).value;
                && r.Success? && r.value in rows
                && r.value.View() == TaskRecord(schema.id,
                                                if schema.title.Some? then schema.title else t.title,
                                                if schema.description.Some? then schema.description else t.description,
                                                if schema.status.Some? then schema.status else t.status,
                                                userId)
                && View() == Replace(old(View()), schema.id, r.value.View())
    {
      ghost var found := Lookup(View(), schema.id);
      var kwargs := ModelDumpExcludeUnset(schema);
      assert forall i :: 0 <= i < |kwargs| ==> kwargs[i].Key() == Id ==> kwargs[i] == SetId(schema.id) by {
        forall i | 0 <= i < |kwargs| && kwargs[i].Key() == Id ensures kwargs[i] == SetId(schema.id) {
          assert kwargs[0].Key() == Id;
          assert i == 0;
        }
      }
      r := UpdateWith(schema.id, userId, kwargs);
      if found.Some? && found.value.userId == userId {
        PartialUpdateKeepsUnsetFields(found.value, schema);
      }
    }

    /** `delete_task`: the same NotFound-then-Unauthorized ladder, then the row is removed. */
    method DeleteTask(taskId: int, userId: int) returns (r: Result<(), HttpError>)
      requires Valid()
      modifies this
      ensures Valid() && nextId == old(nextId)
      ensures old(Lookup(View(), taskId)).None? ==>
                r == Failure(NotFoundException("Task not found")) && rows == old(rows)
      ensures old(Lookup(View(), taskId)).Some? && old(Lookup(View(), taskId)).value.userId != userId ==>
                r == Failure(UnauthorizedException("User not authorized to delete this task")) && rows == old(rows)
      ensures old(Lookup(View(), taskId)).Some? && old(Lookup(View(), taskId)).value.userId == userId ==>
                r == Success(()) && View() == Delete(old(View()), taskId)
    {
      var before := View();
      var idx := IndexOf(before, taskId);
      if idx.None? {
        return Failure(NotFoundException("Task not found"));
      }
      var i := idx.value;
      if rows[i].userId != userId {
        return Failure(UnauthorizedException("User not authorized to delete this task"));
      }
      rows := rows[..i] + rows[i + 1..];
      assert forall k :: 0 <= k < |rows| ==> rows[k] == old(rows)[if k < i then k else k + 1];
      assert View() == before[..i] + before[i + 1..] by {
        forall k | 0 <= k < |rows| ensures View()[k] == (before[..i] + before[i + 1..])[k] {}
      }
      r := Success(());
    }
  }

  /** Page k of `get_user_tasks` is the k-th run of `elements_per_page` of the owner's tasks, in table order. */
  lemma UserTasksPage(service: TaskService, userId: int, status: Option<string>, epp: nat, k: nat)
    requires k >= 1
    ensures service.GetUserTasks(userId, status, k, epp)
         == Some(Window(Matching(service.View(), UserTasksQuery(userId, status, 1, epp)), (k - 1) * epp, epp))
  {
    MatchingIgnoresPaging(service.View(), UserTasksQuery(userId, status, k, epp), UserTasksQuery(userId, status, 1, epp));
  }

  /**
   * The pages of `get_user_tasks` tile the owner's listing: pages 1 to n, each
   * the run that `UserTasksPage` gives, together are the first
   * n * elements_per_page of the owner's tasks.
   */
  lemma UserTasksPagesTile(service: TaskService, userId: int, status: Option<string>, epp: nat, n: nat)
    ensures var all := Matching(service.View(), UserTasksQuery(userId, status, 1, epp));
            Pages(all, epp, n) == all[..Min(n * epp, |all|)]
  {
    PagesTile(Matching(service.View(), UserTasksQuery(userId, status, 1, epp)), epp, n);
  }
}
