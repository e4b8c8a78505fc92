/**
 * The `Task` row object and its `update` method, which assigns each keyword
 * argument to the attribute of the same name, one after the other.
 */
module TasksModels {
  import opened Wrappers
  import opened TasksSchemas

  /** The value of a task's columns (timestamps left out). */
  datatype TaskRecord = TaskRecord(
    id: int,
    title: Option<string>,
    description: Option<string>,
    status: Option<TaskStatus>,
    userId: int)

  /** The attributes of a task that `update` may name. */
  datatype Field = Id | Title | Description | Status | UserId

  /** A value stored in one attribute. */
  datatype AttrValue = IntValue(n: int) | TextValue(text: Option<string>) | StatusValue(status: Option<TaskStatus>)

  /** One `key=value` keyword argument, typed by the attribute it names. */
  datatype Kwarg =
    | SetId(id: int)
    | SetTitle(title: Option<string>)
    | SetDescription(description: Option<string>)
    | SetStatus(status: Option<TaskStatus>)
    | SetUserId(userId: int)
  {
    function Key(): Field
    {
      match this
      case SetId(_) => Id
      case SetTitle(_) => Title
      case SetDescription(_) => Description
      case SetStatus(_) => Status
      case SetUserId(_) => UserId
    }

    function Val(): AttrValue
    {
      match this
      case SetId(v) => IntValue(v)
      case SetTitle(v) => TextValue(v)
      case SetDescription(v) => TextValue(v)
      case SetStatus(v) => StatusValue(v)
      case SetUserId(v) => IntValue(v)
    }
  }

  /** `getattr(task, f)`. */
  function FieldOf(t: TaskRecord, f: Field): AttrValue
  {
    match f
    case Id => IntValue(t.id)
    case Title => TextValue(t.title)
    case Description => TextValue(t.description)
    case Status => StatusValue(t.status)
    case UserId => IntValue(t.userId)
  }

  /** Two tasks that agree on every attribute are the same task value. */
  lemma FieldsDetermineTask(t: TaskRecord, u: TaskRecord)
    requires forall f: Field :: FieldOf(t, f) == FieldOf(u, f)
    ensures t == u
  {
    assert FieldOf(t, Id) == FieldOf(u, Id);
    assert FieldOf(t, Title) == FieldOf(u, Title);
    assert FieldOf(t, Description) == FieldOf(u, Description);
    assert FieldOf(t, Status) == FieldOf(u, Status);
    assert FieldOf(t, UserId) == FieldOf(u, UserId);
  }

  /** `setattr(task, a.Key(), a.Val())`: the named attribute takes the value, the others keep theirs. */
  function SetAttr(t: TaskRecord, a: Kwarg): (u: TaskRecord)
    ensures FieldOf(u, a.Key()) == a.Val()
    ensures forall f: Field :: f != a.Key() ==> FieldOf(u, f) == FieldOf(t, f)
  {
    match a
    case SetId(v) => t.(id := v)
    case SetTitle(v) => t.(title := v)
    case SetDescription(v) => t.(description := v)
    case SetStatus(v) => t.(status := v)
    case SetUserId(v) => t.(userId := v)
  }

  /** The task after assigning `kwargs` in order. */
  function ApplyAll(t: TaskRecord, kwargs: seq<Kwarg>): TaskRecord
    decreases |kwargs|
  {
    if kwargs == [] then t
    else SetAttr(ApplyAll(t, kwargs[..|kwargs| - 1]), kwargs[|kwargs| - 1])
  }

  /** The value the last keyword argument naming `f` carries, if any names it. */
  function LastValue(kwargs: seq<Kwarg>, f: Field): Option<AttrValue>
    decreases |kwargs|
  {
    if kwargs == [] then None
    else if kwargs[|kwargs| - 1].Key() == f then Some(kwargs[|kwargs| - 1].Val())
    else LastValue(kwargs[..|kwargs| - 1], f)
  }

  /** Keyword arguments come from a dict: no attribute is named twice. */
  predicate DistinctKeys(kwargs: seq<Kwarg>)
  {
    forall i, j :: 0 <= i < j < |kwargs| ==> kwargs[i].Key() != kwargs[j].Key()
  }

  /** After `update`, each attribute holds the last value given for it, or its old value if none was. */
  lemma {:induction false} ApplyAllField(t: TaskRecord, kwargs: seq<Kwarg>, f: Field)
    ensures FieldOf(ApplyAll(t, kwargs), f) == (match LastValue(kwargs, f) case Some(v) => v case None => FieldOf(t, f))
    decreases |kwargs|
  {
    if kwargs != [] {
      ApplyAllField(t, kwargs[..|kwargs| - 1], f);
    }
  }

  lemma {:induction false} LastValueAbsent(kwargs: seq<Kwarg>, f: Field)
    requires forall i :: 0 <= i < |kwargs| ==> kwargs[i].Key() != f
    ensures LastValue(kwargs, f) == None
    decreases |kwargs|
  {
    if kwargs != [] {
      LastValueAbsent(kwargs[..|kwargs| - 1], f);
    }
  }

  lemma {:induction false} LastValueDistinct(kwargs: seq<Kwarg>, i: nat)
    requires DistinctKeys(kwargs) && i < |kwargs|
    ensures LastValue(kwargs, kwargs[i].Key()) == Some(kwargs[i].Val())
    decreases |kwargs|
  {
    var n := |kwargs| - 1;
    if i < n {
      assert kwargs[n].Key() != kwargs[i].Key();
      var init := kwargs[..n];
      assert init[i] == kwargs[i];
      assert DistinctKeys(init) by {
        forall p, q | 0 <= p < q < |init| ensures init[p].Key() != init[q].Key() {
          assert init[p] == kwargs[p] && init[q] == kwargs[q];
        }
      }
      LastValueDistinct(init, i);
    }
  }

  /** Assigning `a` and then `b` is assigning `a + b`. */
  lemma {:induction false} ApplyAllConcat(t: TaskRecord, a: seq<Kwarg>, b: seq<Kwarg>)
    ensures ApplyAll(t, a + b) == ApplyAll(ApplyAll(t, a), b)
    decreases |b|
  {
    if b != [] {
      var n := |b| - 1;
      assert (a + b)[..|a + b| - 1] == a + b[..n];
      assert (a + b)[|a + b| - 1] == b[n];
      ApplyAllConcat(t, a, b[..n]);
    } else {
      assert a + b == a;
    }
  }

  /** After `update(**kwargs)`, every key of kwargs holds its given value. */
  lemma UpdateSetsEveryKey(t: TaskRecord, kwargs: seq<Kwarg>, i: nat)
    requires DistinctKeys(kwargs) && i < |kwargs|
    ensures FieldOf(ApplyAll(t, kwargs), kwargs[i].Key()) == kwargs[i].Val()
  {
    ApplyAllField(t, kwargs, kwargs[i].Key());
    LastValueDistinct(kwargs, i);
  }

  /** An attribute that kwargs does not name keeps its value. */
  lemma UpdateKeepsOtherFields(t: TaskRecord, kwargs: seq<Kwarg>, f: Field)
    requires forall i :: 0 <= i < |kwargs| ==> kwargs[i].Key() != f
    ensures FieldOf(ApplyAll(t, kwargs), f) == FieldOf(t, f)
  {
    ApplyAllField(t, kwargs, f);
    LastValueAbsent(kwargs, f);
  }

  /** Applying the same kwargs twice gives what applying them once gives. */
  lemma UpdateIdempotent(t: TaskRecord, kwargs: seq<Kwarg>)
    ensures ApplyAll(ApplyAll(t, kwargs), kwargs) == ApplyAll(t, kwargs)
  {
    var once := ApplyAll(t, kwargs);
    forall f: Field ensures FieldOf(ApplyAll(once, kwargs), f) == FieldOf(once, f) {
      ApplyAllField(once, kwargs, f);
      ApplyAllField(t, kwargs, f);
    }
    FieldsDetermineTask(ApplyAll(once, kwargs), once);
  }

  /** `update()` with no keyword arguments changes nothing. */
  lemma UpdateEmptyIsNoOp(t: TaskRecord)
    ensures ApplyAll(t, []) == t
  {
  }

  /** A task row: the object that the service fetches, mutates in place and commits. */
  class Task {
    var id: int
    var title: Option<string>
    var description: Option<string>
    var status: Option<TaskStatus>
    var userId: int

    function View(): TaskRecord
      reads this
    {
      TaskRecord(id, title, description, status, userId)
    }

    constructor (r: TaskRecord)
      ensures View() == r
    {
      id, title, description, status, userId := r.id, r.title, r.description, r.status, r.userId;
    }

    /** `update(**kwargs)`: `setattr` for each keyword argument in turn. */
    method Update(kwargs: seq<Kwarg>)
      modifies this
      ensures View() == ApplyAll(old(View()), kwargs)
    {
      for i := 0 to |kwargs|
        invariant View() == ApplyAll(old(View()), kwargs[..i])
      {
        assert kwargs[..i + 1][..i] == kwargs[..i];
        match kwargs[i]
        case SetId(v) => id := v;
        case SetTitle(v) => title := v;
        case SetDescription(v) => description := v;
        case SetStatus(v) => status := v;
        case SetUserId(v) => userId := v;
      }
      assert kwargs[..|kwargs|] == kwargs;
    }
  }
}
