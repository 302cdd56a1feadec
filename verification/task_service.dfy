/**
 * The task table. Every read and write is scoped to the calling user: a task owned
 * by someone else is as missing as one that does not exist.
 */
module TaskService {
  import opened Wrappers
  import opened Uuids
  import opened Errors
  import opened Models

  /** The TaskCreate body. */
  datatype TaskCreate = TaskCreate(title: string, description: Option<string>)

  /** A field of a request body: left out, or given (possibly as null). */
  datatype Patch<T> = Unset | Given(value: T)

  /** The TaskUpdate body; every field is optional and may be given as null. */
  datatype TaskUpdate = TaskUpdate(
    title: Patch<Option<string>>, description: Patch<Option<string>>, isCompleted: Patch<Option<bool>>)

  /** One entry of task_update.model_dump(exclude_unset=True). */
  datatype Assignment =
    | SetTitle(title: Option<string>)
    | SetDescription(description: Option<string>)
    | SetCompleted(isCompleted: Option<bool>)

  /** The editable columns of a task as the session holds them until commit. */
  datatype Columns = Columns(title: Option<string>, description: Option<string>, isCompleted: Option<bool>)

  /** The fields the request supplied, in declaration order. */
  function UpdateData(u: TaskUpdate): (data: seq<Assignment>)
    ensures |data| <= 3
    ensures forall v :: SetTitle(v) in data <==> u.title == Given(v)
    ensures forall v :: SetDescription(v) in data <==> u.description == Given(v)
    ensures forall v :: SetCompleted(v) in data <==> u.isCompleted == Given(v)
  {
    (if u.title.Given? then [SetTitle(u.title.value)] else [])
    + (if u.description.Given? then [SetDescription(u.description.value)] else [])
    + (if u.isCompleted.Given? then [SetCompleted(u.isCompleted.value)] else [])
  }

  /** setattr(db_task, field, value) */
  function SetAttr(cols: Columns, a: Assignment): Columns {
    match a
    case SetTitle(v) => cols.(title := v)
    case SetDescription(v) => cols.(description := v)
    case SetCompleted(v) => cols.(isCompleted := v)
  }

  /** The columns after the setattr loop has run over data. */
  function ApplyAll(cols: Columns, data: seq<Assignment>): Columns {
    if data == [] then cols else SetAttr(ApplyAll(cols, data[..|data| - 1]), data[|data| - 1])
  }

  /** The value a column ends with: the supplied one, or the one it had. */
  function Patched<T>(p: Patch<T>, current: T): T {
    if p.Given? then p.value else current
  }

  lemma ApplyAllSnoc(cols: Columns, data: seq<Assignment>, a: Assignment)
    ensures ApplyAll(cols, data + [a]) == SetAttr(ApplyAll(cols, data), a)
  {
  }

  /** The setattr loop overwrites exactly the supplied fields and keeps the others. */
  lemma SetAttrLoopPatches(cols: Columns, u: TaskUpdate)
    ensures ApplyAll(cols, UpdateData(u)) ==
      Columns(Patched(u.title, cols.title), Patched(u.description, cols.description),
              Patched(u.isCompleted, cols.isCompleted))
  {
    var t := if u.title.Given? then [SetTitle(u.title.value)] else [];
    var d := if u.description.Given? then [SetDescription(u.description.value)] else [];
    var k := if u.isCompleted.Given? then [SetCompleted(u.isCompleted.value)] else [];
    assert UpdateData(u) == t + d + k;
    if u.title.Given? {
      ApplyAllSnoc(cols, [], t[0]);
      assert [] + [t[0]] == t;
    } else {
      assert t == [];
    }
    if u.description.Given? {
      ApplyAllSnoc(cols, t, d[0]);
      assert t + [d[0]] == t + d;
    } else {
      assert t + d == t;
    }
    if u.isCompleted.Given? {
      ApplyAllSnoc(cols, t + d, k[0]);
      assert t + d + [k[0]] == t + d + k;
    } else {
      assert t + d + k == t + d;
    }
  }

  /** select(Task).where(id == task_id and user_id == user_id), one row or none. */
  function GetTaskById(tasks: seq<Task>, taskId: Uuid, userId: Uuid): (r: Option<Task>)
    ensures r.Some? ==> r.value in tasks && r.value.id == taskId && r.value.userId == userId
    ensures r.None? <==> forall t :: t in tasks ==> t.id != taskId || t.userId != userId
  {
    if tasks == [] then None
    else if tasks[0].id == taskId && tasks[0].userId == userId then Some(tasks[0])
    else GetTaskById(tasks[1..], taskId, userId)
  }

  /** Task ids are unique, so an id names one task. */
  lemma SameIdSameTask(tasks: seq<Task>, a: Task, b: Task)
    requires UniqueTaskIds(tasks) && a in tasks && b in tasks && a.id == b.id
    ensures a == b
  {
  }

  /** A task is invisible to everyone but its owner. */
  lemma ForeignTaskNotFound(tasks: seq<Task>, t: Task, other: Uuid)
    requires UniqueTaskIds(tasks) && t in tasks && other != t.userId
    ensures GetTaskById(tasks, t.id, other).None?
  {
  }

  /** The owner finds its task by id. */
  lemma OwnTaskFound(tasks: seq<Task>, t: Task)
    requires UniqueTaskIds(tasks) && t in tasks
    ensures GetTaskById(tasks, t.id, t.userId) == Some(t)
  {
  }

  /** A task just inserted under a fresh id is what its owner then fetches by that id. */
  lemma CreatedTaskFound(tasks: seq<Task>, t: Task)
    requires forall x :: x in tasks ==> x.id != t.id
    ensures GetTaskById(tasks + [t], t.id, t.userId) == Some(t)
  {
  }

  predicate NewestFirst(s: seq<Task>) {
    forall i, j :: 0 <= i < j < |s| ==> s[i].createdAt >= s[j].createdAt
  }

  /** The tasks of one user, in table order. */
  function OwnedBy(tasks: seq<Task>, userId: Uuid): (owned: seq<Task>)
    ensures forall i :: 0 <= i < |owned| ==> owned[i] in tasks && owned[i].userId == userId
    ensures forall i :: 0 <= i < |tasks| && tasks[i].userId == userId ==> tasks[i] in owned
  {
    if tasks == [] then []
    else (if tasks[0].userId == userId then [tasks[0]] else []) + OwnedBy(tasks[1..], userId)
  }

  /** t placed before the first task that is not newer than it. */
  function InsertNewestFirst(t: Task, s: seq<Task>): (r: seq<Task>)
    ensures multiset(r) == multiset(s) + multiset{t}
    ensures forall i :: 0 <= i < |r| ==> r[i] == t || r[i] in s
  {
    if s == [] || t.createdAt >= s[0].createdAt then
      [t] + s
    else
      assert s == [s[0]] + s[1..];
      [s[0]] + InsertNewestFirst(t, s[1..])
  }

  lemma {:induction false} InsertKeepsNewestFirst(t: Task, s: seq<Task>)
    requires NewestFirst(s)
    ensures NewestFirst(InsertNewestFirst(t, s))
  {
    if s != [] && t.createdAt < s[0].createdAt {
      InsertKeepsNewestFirst(t, s[1..]);
      var rest := InsertNewestFirst(t, s[1..]);
      forall i | 0 <= i < |rest|
        ensures rest[i].createdAt <= s[0].createdAt
      {
        if rest[i] != t {
          var k :| 0 <= k < |s[1..]| && s[1..][k] == rest[i];
          assert s[k + 1] == rest[i];
        }
      }
    }
  }

  /** The tasks of s ordered by created_at, newest first. */
  function SortNewestFirst(s: seq<Task>): (r: seq<Task>)
    ensures multiset(r) == multiset(s)
  {
    if s == [] then []
    else
      assert s == [s[0]] + s[1..];
      InsertNewestFirst(s[0], SortNewestFirst(s[1..]))
  }

  lemma {:induction false} SortIsNewestFirst(s: seq<Task>)
    ensures NewestFirst(SortNewestFirst(s))
  {
    if s != [] {
      SortIsNewestFirst(s[1..]);
      InsertKeepsNewestFirst(s[0], SortNewestFirst(s[1..]));
    }
  }

  /**
   * get_tasks_by_user: exactly the user's tasks, each once, newest first
   * (order_by(created_at.desc())).
   */
  function GetTasksByUser(tasks: seq<Task>, userId: Uuid): (r: seq<Task>)
    ensures multiset(r) == multiset(OwnedBy(tasks, userId))
    ensures NewestFirst(r)
  {
    SortIsNewestFirst(OwnedBy(tasks, userId));
    SortNewestFirst(OwnedBy(tasks, userId))
  }

  /** A task is listed for a user exactly when it is in the table and the user owns it. */
  lemma ListedIffOwned(tasks: seq<Task>, userId: Uuid, t: Task)
    ensures t in GetTasksByUser(tasks, userId) <==> t in tasks && t.userId == userId
  {
    var owned := OwnedBy(tasks, userId);
    assert t in GetTasksByUser(tasks, userId) <==> t in multiset(owned);
    if t in owned {
      var i :| 0 <= i < |owned| && owned[i] == t;
    }
    if t in tasks && t.userId == userId {
      var i :| 0 <= i < |tasks| && tasks[i] == t;
    }
  }

  lemma {:induction false} OwnedByNoRepeats(tasks: seq<Task>, userId: Uuid)
    requires NoRepeats(tasks)
    ensures NoRepeats(OwnedBy(tasks, userId))
  {
    if tasks != [] {
      OwnedByNoRepeats(tasks[1..], userId);
      var rest := OwnedBy(tasks[1..], userId);
      forall i | 0 <= i < |rest|
        ensures rest[i] != tasks[0]
      {
        var k :| 0 <= k < |tasks[1..]| && tasks[1..][k] == rest[i];
        assert tasks[k + 1] == rest[i];
      }
    }
  }

  lemma {:induction false} InsertNoRepeats(t: Task, s: seq<Task>)
    requires NoRepeats(s) && t !in s
    ensures NoRepeats(InsertNewestFirst(t, s))
  {
    if s != [] && t.createdAt < s[0].createdAt {
      InsertNoRepeats(t, s[1..]);
      var rest := InsertNewestFirst(t, s[1..]);
      forall i | 0 <= i < |rest|
        ensures rest[i] != s[0]
      {
        if rest[i] != t {
          var k :| 0 <= k < |s[1..]| && s[1..][k] == rest[i];
          assert s[k + 1] == rest[i];
        }
      }
    }
  }

  lemma {:induction false} SortNoRepeats(s: seq<Task>)
    requires NoRepeats(s)
    ensures NoRepeats(SortNewestFirst(s))
  {
    if s != [] {
      SortNoRepeats(s[1..]);
      var sorted := SortNewestFirst(s[1..]);
      assert s[0] !in multiset(s[1..]);
      assert s[0] !in multiset(sorted);
      InsertNoRepeats(s[0], sorted);
    }
  }

  /** With unique task ids, every task of the user is listed exactly once. */
  lemma TasksListedOnce(tasks: seq<Task>, userId: Uuid)
    requires UniqueTaskIds(tasks)
    ensures NoRepeats(GetTasksByUser(tasks, userId))
  {
    OwnedByNoRepeats(tasks, userId);
    SortNoRepeats(OwnedBy(tasks, userId));
  }

  /**
   * create_task: one task owned by userId, not completed. `newId` is the uuid4 the
   * insert draws; if it is taken, the commit fails and the service answers 500.
   */
  method CreateTask(db: Db, task: TaskCreate, userId: Uuid, newId: Uuid, now: int)
    returns (r: Result<Task, HttpError>)
    requires db.Valid()
    modifies db`tasks
    ensures db.Valid()
    ensures (exists t :: t in old(db.tasks) && t.id == newId) ==>
      r == Failure(TaskCreationFailed) && db.tasks == old(db.tasks)
    ensures (forall t :: t in old(db.tasks) ==> t.id != newId) ==>
      && r.Success? && fresh(r.value)
      && db.tasks == old(db.tasks) + [r.value]
      && r.value.id == newId && r.value.userId == userId && r.value.createdAt == now
      && r.value.title == task.title && r.value.description == task.description
      && r.value.isCompleted == Some(false)
  {
    if exists t :: t in db.tasks && t.id == newId {
      return Failure(TaskCreationFailed);
    }
    var created := new Task(newId, userId, task.title, task.description, now);
    db.tasks := db.tasks + [created];
    r := Success(created);
  }

  /** The tasks other than t, in table order. */
  function Remove(tasks: seq<Task>, t: Task): (r: seq<Task>)
    ensures forall i :: 0 <= i < |r| ==> r[i] in tasks && r[i] != t
    ensures forall i :: 0 <= i < |tasks| && tasks[i] != t ==> tasks[i] in r
    ensures multiset(r) == multiset(tasks)[t := 0]
  {
    if tasks == [] then []
    else
      assert tasks == [tasks[0]] + tasks[1..];
      (if tasks[0] == t then [] else [tasks[0]]) + Remove(tasks[1..], t)
  }

  /** Removing a task keeps the ids of the rest unique. */
  lemma {:induction false} RemoveKeepsIdsUnique(tasks: seq<Task>, t: Task)
    requires UniqueTaskIds(tasks)
    ensures UniqueTaskIds(Remove(tasks, t))
  {
    if tasks != [] {
      RemoveKeepsIdsUnique(tasks[1..], t);
      var rest := Remove(tasks[1..], t);
      forall i | 0 <= i < |rest|
        ensures rest[i].id != tasks[0].id
      {
        var k :| 0 <= k < |tasks[1..]| && tasks[1..][k] == rest[i];
        assert tasks[k + 1] == rest[i];
      }
    }
  }

  /** The setattr loop of update_task, run on the staged columns. */
  method Stage(before: Columns, data: seq<Assignment>) returns (pending: Columns)
    ensures pending == ApplyAll(before, data)
  {
    pending := before;
    for i := 0 to |data|
      invariant pending == ApplyAll(before, data[..i])
    {
      assert data[..i + 1][..i] == data[..i];
      pending := SetAttr(pending, data[i]);
    }
    assert data[..|data|] == data;
  }

  /**
   * update_task: a missing or foreign task is 404. Otherwise the supplied fields are
   * assigned and committed; a title given as null breaks NOT NULL at commit, which
   * rolls back and answers 500. Only the caller's task can change.
   */
  method UpdateTask(db: Db, taskId: Uuid, update: TaskUpdate, userId: Uuid) returns (r: Result<Task, HttpError>)
    requires db.Valid()
    modifies set t | t in db.tasks && t.id == taskId && t.userId == userId
    ensures forall t :: t in db.tasks && (t.id != taskId || t.userId != userId) ==> unchanged(t)
    ensures GetTaskById(db.tasks, taskId, userId).None? ==>
      r == Failure(TaskNotFound) && forall t :: t in db.tasks ==> unchanged(t)
    ensures GetTaskById(db.tasks, taskId, userId).Some? ==>
      var t := GetTaskById(db.tasks, taskId, userId).value;
      if update.title == Given(None) then
        r == Failure(TaskUpdateFailed) && unchanged(t)
      else
        && r == Success(t)
        && Some(t.title) == Patched(update.title, Some(old(t.title)))
        && t.description == Patched(update.description, old(t.description))
        && t.isCompleted == Patched(update.isCompleted, old(t.isCompleted))
  {
    var found := GetTaskById(db.tasks, taskId, userId);
    if found.None? {
      return Failure(TaskNotFound);
    }
    var task := found.value;
    var before := Columns(Some(task.title), task.description, task.isCompleted);
    var pending := Stage(before, UpdateData(update));
    SetAttrLoopPatches(before, update);
    if pending.title.None? {
      return Failure(TaskUpdateFailed);
    }
    task.title := pending.title.value;
    task.description := pending.description;
    task.isCompleted := pending.isCompleted;
    r := Success(task);
  }

  /** delete_task: a missing or foreign task is 404; otherwise exactly that task goes. */
  method DeleteTask(db: Db, taskId: Uuid, userId: Uuid) returns (r: Result<bool, HttpError>)
    requires db.Valid()
    modifies db`tasks
    ensures db.Valid()
    ensures GetTaskById(old(db.tasks), taskId, userId).None? ==>
      r == Failure(TaskNotFound) && db.tasks == old(db.tasks)
    ensures GetTaskById(old(db.tasks), taskId, userId).Some? ==>
      && r == Success(true)
      && db.tasks == Remove(old(db.tasks), GetTaskById(old(db.tasks), taskId, userId).value)
      && GetTaskById(db.tasks, taskId, userId).None?
  {
    var found := GetTaskById(db.tasks, taskId, userId);
    if found.None? {
      return Failure(TaskNotFound);
    }
    var task := found.value;
    RemoveKeepsIdsUnique(db.tasks, task);
    db.tasks := Remove(db.tasks, task);
    forall t | t in db.tasks
      ensures t.id != taskId
    {
      if t.id == taskId {
        SameIdSameTask(old(db.tasks), t, task);
      }
    }
    r := Success(true);
  }

  /** mark_task_completed: update_task with is_completed = True. */
  method MarkTaskCompleted(db: Db, taskId: Uuid, userId: Uuid) returns (r: Result<Task, HttpError>)
    requires db.Valid()
    modifies set t | t in db.tasks && t.id == taskId && t.userId == userId
    ensures GetTaskById(db.tasks, taskId, userId).None? ==> r == Failure(TaskNotFound)
    ensures GetTaskById(db.tasks, taskId, userId).Some? ==>
      var t := GetTaskById(db.tasks, taskId, userId).value;
      && r == Success(t) && t.isCompleted == Some(true)
      && t.title == old(t.title) && t.description == old(t.description)
  {
    r := UpdateTask(db, taskId, TaskUpdate(Unset, Unset, Given(Some(true))), userId);
  }

  /** mark_task_incomplete: update_task with is_completed = False. */
  method MarkTaskIncomplete(db: Db, taskId: Uuid, userId: Uuid) returns (r: Result<Task, HttpError>)
    requires db.Valid()
    modifies set t | t in db.tasks && t.id == taskId && t.userId == userId
    ensures GetTaskById(db.tasks, taskId, userId).None? ==> r == Failure(TaskNotFound)
    ensures GetTaskById(db.tasks, taskId, userId).Some? ==>
      var t := GetTaskById(db.tasks, taskId, userId).value;
      && r == Success(t) && t.isCompleted == Some(false)
      && t.title == old(t.title) && t.description == old(t.description)
  {
    r := UpdateTask(db, taskId, TaskUpdate(Unset, Unset, Given(Some(false))), userId);
  }
}
