/**
 * The request schemas of the task endpoints and the task status enumeration.
 * Pydantic defaults become Dafny default parameter values.
 */
module TasksSchemas {
  import opened Wrappers

  /** `TaskStatus`, a string-valued enumeration. */
  datatype TaskStatus = New | InProgress | Completed {

    /** The enumeration member's value. */
    function Value(): string
    {
      match this
      case New => "new"
      case InProgress => "in_progress"
      case Completed => "completed"
    }

    /** `str(status)`: parsing the printed form gives the member back. */
    function ToString(): (s: string)
      ensures ParseStatus(s) == Some(this)
    {
      Value()
    }
  }

  /** `TaskStatus(value)`: the member whose value is `v`, if there is one. */
  function ParseStatus(v: string): (r: Option<TaskStatus>)
    ensures r.Some? <==> v in {"new", "in_progress", "completed"}
  {
    if v == "new" then Some(New)
    else if v == "in_progress" then Some(InProgress)
    else if v == "completed" then Some(Completed)
    else None
  }

  /** Parsing a status value and printing a parsed status are inverse to each other. */
  lemma ParseStatusInverse(s: TaskStatus, v: string)
    ensures ParseStatus(s.Value()) == Some(s)
    ensures ParseStatus(v) == Some(s) ==> s.Value() == v
  {
  }

  /** The enumeration has exactly three members, with three distinct values. */
  lemma ExactlyThreeStatuses()
    ensures (set s: TaskStatus | true :: s.Value()) == {"new", "in_progress", "completed"}
    ensures forall s: TaskStatus, t: TaskStatus :: s.Value() == t.Value() ==> s == t
  {
    var values := set s: TaskStatus | true :: s.Value();
    assert New.Value() in values && InProgress.Value() in values && Completed.Value() in values;
  }

  /** `BaseTaskSchema` (and `CreateTaskSchema`, which adds nothing): status defaults to NEW. */
  datatype CreateTaskSchema = CreateTaskSchema(title: string, description: string, status: TaskStatus := New)

  /** `UpdateTaskSchema`: the id is required, every other field is optional and defaults to None. */
  datatype UpdateTaskSchema = UpdateTaskSchema(
    id: int,
    title: Option<string> := None,
    description: Option<string> := None,
    status: Option<TaskStatus> := None)

  lemma SchemaDefaults(id: int, title: string, description: string)
    ensures CreateTaskSchema(title, description).status == New
    ensures UpdateTaskSchema(id) == UpdateTaskSchema(id, None, None, None)
  {
  }
}
