/** contexts/task-context.tsx: the provider that owns the browser's task list. Every operation
    replaces `tasks` by a map or filter over the previous list, stamped with the current time. */
module TaskContext {
  import opened Wrappers
  import opened Types
  import opened Seqs

  /** `Omit<Task, "id" | "createdAt" | "updatedAt">`: what the form hands to `addTask`. */
  datatype TaskDraft = TaskDraft(
    title: string,
    description: string,
    startDate: int,
    endDate: int,
    files: seq<TaskFile>,
    completed: bool,
    priority: string,
    color: string)

  /** `Partial<Task>`: every field may be supplied; `updatedAt` is overwritten anyway. */
  datatype TaskPatch = TaskPatch(
    id: Option<string>,
    title: Option<string>,
    description: Option<string>,
    startDate: Option<int>,
    endDate: Option<int>,
    files: Option<seq<TaskFile>>,
    createdAt: Option<int>,
    updatedAt: Option<int>,
    completed: Option<bool>,
    priority: Option<string>,
    color: Option<string>)

  function Or<T>(o: Option<T>, fallback: T): T
  {
    if o.Some? then o.value else fallback
  }

  /** `{ ...task, ...patch, updatedAt: now }` */
  function ApplyPatch(t: Task, p: TaskPatch, now: int): (r: Task)
  {
    Task(Or(p.id, t.id), Or(p.title, t.title), Or(p.description, t.description),
         Or(p.startDate, t.startDate), Or(p.endDate, t.endDate), Or(p.files, t.files),
         Or(p.createdAt, t.createdAt), now, Or(p.completed, t.completed),
         Or(p.priority, t.priority), Or(p.color, t.color))
  }

  /** The task `addTask` builds: the draft's fields, a fresh id, and one timestamp for both stamps. */
  function NewTask(d: TaskDraft, id: string, now: int): (r: Task)
  {
    Task(id, d.title, d.description, d.startDate, d.endDate, d.files, now, now, d.completed,
         d.priority, d.color)
  }

  /** `prev.map(task => task.id === id ? f(task) : task)` for each of the per-task edits. */
  function Updated(tasks: seq<Task>, id: string, p: TaskPatch, now: int): (r: seq<Task>)
  {
    seq(|tasks|, i requires 0 <= i < |tasks| =>
      if tasks[i].id == id then ApplyPatch(tasks[i], p, now) else tasks[i])
  }

  function Toggled(tasks: seq<Task>, id: string, now: int): (r: seq<Task>)
  {
    seq(|tasks|, i requires 0 <= i < |tasks| =>
      if tasks[i].id == id then tasks[i].(completed := !tasks[i].completed, updatedAt := now)
      else tasks[i])
  }

  function WithFileAdded(tasks: seq<Task>, id: string, f: TaskFile, now: int): (r: seq<Task>)
  {
    seq(|tasks|, i requires 0 <= i < |tasks| =>
      if tasks[i].id == id then tasks[i].(files := tasks[i].files + [f], updatedAt := now)
      else tasks[i])
  }

  function FileIdIsNot(fileId: string): TaskFile -> bool
  {
    (f: TaskFile) => f.id != fileId
  }

  function WithFileRemoved(tasks: seq<Task>, id: string, fileId: string, now: int): (r: seq<Task>)
  {
    seq(|tasks|, i requires 0 <= i < |tasks| =>
      if tasks[i].id == id then tasks[i].(files := Filter(tasks[i].files, FileIdIsNot(fileId)), updatedAt := now)
      else tasks[i])
  }

  function IdIsNot(id: string): Task -> bool
  {
    (t: Task) => t.id != id
  }

  /** `prev.filter(task => task.id !== id)`: a hard local removal, no soft-delete flag. */
  function Deleted(tasks: seq<Task>, id: string): (r: seq<Task>)
  {
    Filter(tasks, IdIsNot(id))
  }

  predicate HasId(tasks: seq<Task>, id: string)
  {
    exists i | 0 <= i < |tasks| :: tasks[i].id == id
  }

  predicate UniqueIds(tasks: seq<Task>)
  {
    forall i, j | 0 <= i < j < |tasks| :: tasks[i].id != tasks[j].id
  }

  /** Every field the patch supplies wins, every other one is kept, and `updatedAt` is the edit time. */
  lemma PatchOverrides(t: Task, p: TaskPatch, now: int)
    ensures var r := ApplyPatch(t, p, now);
      && r.updatedAt == now
      && (p.title.Some? ==> r.title == p.title.value) && (p.title.None? ==> r.title == t.title)
      && (p.description.Some? ==> r.description == p.description.value)
      && (p.description.None? ==> r.description == t.description)
      && (p.startDate.Some? ==> r.startDate == p.startDate.value) && (p.startDate.None? ==> r.startDate == t.startDate)
      && (p.endDate.Some? ==> r.endDate == p.endDate.value) && (p.endDate.None? ==> r.endDate == t.endDate)
      && (p.files.Some? ==> r.files == p.files.value) && (p.files.None? ==> r.files == t.files)
      && (p.completed.Some? ==> r.completed == p.completed.value) && (p.completed.None? ==> r.completed == t.completed)
      && (p.priority.Some? ==> r.priority == p.priority.value) && (p.priority.None? ==> r.priority == t.priority)
      && (p.color.Some? ==> r.color == p.color.value) && (p.color.None? ==> r.color == t.color)
      && (p.id.Some? ==> r.id == p.id.value) && (p.id.None? ==> r.id == t.id)
      && (p.createdAt.Some? ==> r.createdAt == p.createdAt.value) && (p.createdAt.None? ==> r.createdAt == t.createdAt)
  {
  }

  /** Applying the same patch twice at the same time is the same as applying it once. */
  lemma PatchIdempotent(t: Task, p: TaskPatch, now: int)
    ensures ApplyPatch(ApplyPatch(t, p, now), p, now) == ApplyPatch(t, p, now)
  {
  }

  /** `updateTask` keeps the length, leaves every other task alone and patches the matching ones. */
  lemma UpdatedShape(tasks: seq<Task>, id: string, p: TaskPatch, now: int)
    ensures var r := Updated(tasks, id, p, now);
      && |r| == |tasks|
      && (forall i | 0 <= i < |tasks| && tasks[i].id != id :: r[i] == tasks[i])
      && (forall i | 0 <= i < |tasks| && tasks[i].id == id :: r[i] == ApplyPatch(tasks[i], p, now))
  {
  }

  /** `deleteTask` drops every task with the id and keeps all the others, in their order. */
  lemma DeletedShape(tasks: seq<Task>, id: string)
    ensures var r := Deleted(tasks, id);
      && !HasId(r, id)
      && (forall t | t in tasks && t.id != id :: t in r)
      && IsSubsequence(r, tasks)
      && (!HasId(tasks, id) ==> r == tasks)
  {
    FilterIsSubsequence(tasks, IdIsNot(id));
    if !HasId(tasks, id) {
      FilterAll(tasks, IdIsNot(id));
    }
  }

  /** `addFileToTask` appends the file at the end of the matching task's files only. */
  lemma FileAddedShape(tasks: seq<Task>, id: string, f: TaskFile, now: int)
    ensures var r := WithFileAdded(tasks, id, f, now);
      && |r| == |tasks|
      && (forall i | 0 <= i < |tasks| && tasks[i].id != id :: r[i] == tasks[i])
      && (forall i | 0 <= i < |tasks| && tasks[i].id == id ::
            r[i].files == tasks[i].files + [f] && r[i] == tasks[i].(files := r[i].files, updatedAt := now))
  {
  }

  /** `removeFileFromTask` drops the files with that id from the matching task, keeping the order of
      the rest; other tasks are untouched. */
  lemma FileRemovedShape(tasks: seq<Task>, id: string, fileId: string, now: int)
    ensures var r := WithFileRemoved(tasks, id, fileId, now);
      && |r| == |tasks|
      && (forall i | 0 <= i < |tasks| && tasks[i].id != id :: r[i] == tasks[i])
      && (forall i | 0 <= i < |tasks| && tasks[i].id == id ::
            && (forall g | g in r[i].files :: g.id != fileId)
            && (forall g | g in tasks[i].files && g.id != fileId :: g in r[i].files)
            && IsSubsequence(r[i].files, tasks[i].files)
            && r[i] == tasks[i].(files := r[i].files, updatedAt := now))
  {
    forall i | 0 <= i < |tasks| && tasks[i].id == id
      ensures IsSubsequence(WithFileRemoved(tasks, id, fileId, now)[i].files, tasks[i].files)
    {
      FilterIsSubsequence(tasks[i].files, FileIdIsNot(fileId));
    }
  }

  /** `toggleTaskCompletion` twice restores every `completed` flag; only `updatedAt` moves on. */
  lemma ToggleTwice(tasks: seq<Task>, id: string, now1: int, now2: int)
    ensures var r := Toggled(Toggled(tasks, id, now1), id, now2);
      && |r| == |tasks|
      && (forall i | 0 <= i < |tasks| :: r[i].completed == tasks[i].completed)
      && (forall i | 0 <= i < |tasks| && tasks[i].id != id :: r[i] == tasks[i])
      && (forall i | 0 <= i < |tasks| && tasks[i].id == id :: r[i] == tasks[i].(updatedAt := now2))
  {
  }

  /** An id that matches no task makes every per-task operation a no-op. */
  lemma UnknownIdIsNoOp(tasks: seq<Task>, id: string, p: TaskPatch, f: TaskFile, fileId: string, now: int)
    requires !HasId(tasks, id)
    ensures Updated(tasks, id, p, now) == tasks
    ensures Toggled(tasks, id, now) == tasks
    ensures WithFileAdded(tasks, id, f, now) == tasks
    ensures WithFileRemoved(tasks, id, fileId, now) == tasks
    ensures Deleted(tasks, id) == tasks
  {
    FilterAll(tasks, IdIsNot(id));
  }

  /** With a fresh id (what `crypto.randomUUID` provides) adding keeps the ids unique. */
  lemma AddKeepsIdsUnique(tasks: seq<Task>, d: TaskDraft, id: string, now: int)
    requires UniqueIds(tasks) && !HasId(tasks, id)
    ensures UniqueIds(tasks + [NewTask(d, id, now)])
  {
  }

  /** The provider: its `tasks` state and the operations it hands out through the context. */
  class TaskProvider {
    var tasks: seq<Task>

    constructor ()
      ensures tasks == []
    {
      tasks := [];
    }

    /** `addTask`: exactly one task more, at the end, with `createdAt == updatedAt == now`. */
    method AddTask(d: TaskDraft, freshId: string, now: int)
      modifies this
      ensures tasks == old(tasks) + [NewTask(d, freshId, now)]
      ensures tasks[|tasks| - 1].createdAt == tasks[|tasks| - 1].updatedAt == now
    {
      tasks := tasks + [NewTask(d, freshId, now)];
    }

    method UpdateTask(id: string, p: TaskPatch, now: int)
      modifies this
      ensures tasks == Updated(old(tasks), id, p, now)
      ensures |tasks| == |old(tasks)|
      ensures forall i | 0 <= i < |tasks| && old(tasks)[i].id != id :: tasks[i] == old(tasks)[i]
    {
      tasks := Updated(tasks, id, p, now);
    }

    method DeleteTask(id: string)
      modifies this
      ensures tasks == Deleted(old(tasks), id)
      ensures !HasId(tasks, id)
    {
      tasks := Deleted(tasks, id);
      DeletedShape(old(tasks), id);
    }

    method AddFileToTask(taskId: string, f: TaskFile, now: int)
      modifies this
      ensures tasks == WithFileAdded(old(tasks), taskId, f, now)
      ensures |tasks| == |old(tasks)|
      ensures forall i | 0 <= i < |tasks| && old(tasks)[i].id != taskId :: tasks[i] == old(tasks)[i]
    {
      tasks := WithFileAdded(tasks, taskId, f, now);
    }

    method RemoveFileFromTask(taskId: string, fileId: string, now: int)
      modifies this
      ensures tasks == WithFileRemoved(old(tasks), taskId, fileId, now)
      ensures |tasks| == |old(tasks)|
      ensures forall i | 0 <= i < |tasks| && old(tasks)[i].id != taskId :: tasks[i] == old(tasks)[i]
    {
      tasks := WithFileRemoved(tasks, taskId, fileId, now);
    }

    method ToggleTaskCompletion(id: string, now: int)
      modifies this
      ensures tasks == Toggled(old(tasks), id, now)
      ensures forall i | 0 <= i < |tasks| ::
        tasks[i].completed == (if old(tasks)[i].id == id then !old(tasks)[i].completed else old(tasks)[i].completed)
    {
      tasks := Toggled(tasks, id, now);
    }
  }
}
