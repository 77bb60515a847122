/** app/api/tasks/route.ts: listing the signed-in user's tasks and creating one. Both handlers
    first make sure a user document exists for the session's e-mail. */
module TasksRoute {
  import opened Wrappers
  import opened Seqs
  import opened TaskModel
  import opened Store
  import Text

  function OwnedBy(uid: nat): TaskEntry -> bool
  {
    (e: TaskEntry) => e.rec.userId == uid
  }

  /** `sort({ createdAt: -1 })` as an ascending key. */
  function NewestFirst(): TaskEntry -> int
  {
    (e: TaskEntry) => -e.rec.createdAt
  }

  /** `Task.find({ userId }).sort({ createdAt: -1 })`; tasks created at the same instant keep id order. */
  function UserTasks(tasks: map<nat, TaskRecord>, bound: nat, uid: nat): (r: seq<TaskEntry>)
  {
    SortBy(Query(tasks, bound, OwnedBy(uid)), NewestFirst())
  }

  /** The listing holds every task of the user once, trashed ones included (there is no
      `isDeleted` filter), newest first. */
  lemma UserTasksExact(tasks: map<nat, TaskRecord>, bound: nat, uid: nat, e: TaskEntry)
    requires forall id | id in tasks :: id < bound
    ensures e in UserTasks(tasks, bound, uid) <==> e.id in tasks && tasks[e.id] == e.rec && e.rec.userId == uid
    ensures multiset(UserTasks(tasks, bound, uid)) == multiset(Query(tasks, bound, OwnedBy(uid)))
    ensures forall i, j | 0 <= i < j < |UserTasks(tasks, bound, uid)| ::
      UserTasks(tasks, bound, uid)[i].rec.createdAt >= UserTasks(tasks, bound, uid)[j].rec.createdAt
  {
    var q := Query(tasks, bound, OwnedBy(uid));
    QueryExact(tasks, bound, OwnedBy(uid), e);
    SortBySorted(q, NewestFirst());
    assert e in UserTasks(tasks, bound, uid) <==> e in multiset(UserTasks(tasks, bound, uid));
  }

  /** The JSON body of a POST; `dueDate` is `None` for a missing or falsy value. */
  datatype PostBody = PostBody(title: Option<string>, description: Option<string>, dueDate: Option<int>, priority: Option<string>)

  /** What the handler passes to `new Task(...)`: priority 'medium' when absent, the session
      user as owner, no attachments. */
  function PostInput(body: PostBody, uid: nat): (input: TaskInput)
  {
    TaskInput(body.title, body.description, None, body.dueDate,
      Some(if body.priority.None? then "medium" else body.priority.value), [], Some(uid))
  }

  /** A POST saves a task exactly when its trimmed title is non-empty and its priority, if given,
      is a known one. */
  lemma {:induction false} PostSaves(body: PostBody, uid: nat, now: int)
    ensures SaveNew(PostInput(body, uid), now).Saved? <==>
      body.title.Some? && Text.Trim(body.title.value) != [] && (body.priority.None? || ParsePriority(body.priority.value).Some?)
  {
    var input := PostInput(body, uid);
    SaveNewAccepts(input, now);
    assert input.userId.Some? && |input.attachments| == 0;
    assert input.priority.Some? && (ParsePriority(input.priority.value).Some? <==>
      body.priority.None? || ParsePriority(body.priority.value).Some?);
  }

  /** A task a POST saves is the user's, medium by default, with the given due date, not completed,
      not in the trash, and stamped with the request's time. */
  lemma {:induction false} PostSavedDefaults(body: PostBody, uid: nat, now: int)
    ensures SaveNew(PostInput(body, uid), now).Saved? ==>
      var rec := SaveNew(PostInput(body, uid), now).record;
      && rec.userId == uid && rec.dueDate == body.dueDate && !rec.completed && !rec.isDeleted
      && (body.priority.None? ==> rec.priority == Medium)
      && rec.createdAt == now && rec.updatedAt == now
  {
    var input := PostInput(body, uid);
    if SaveNew(input, now).Saved? {
      SavedDefaults(input, now);
    }
  }

  /** `GET /api/tasks`. */
  method Get(db: Database, session: Option<Session>) returns (status: int, body: seq<TaskEntry>)
    requires db.Valid()
    modifies db`users, db`nextId
    ensures db.Valid() && db.tasks == old(db.tasks)
    ensures !Authenticated(session) ==> status == Unauthorized && body == [] && unchanged(db)
    ensures Authenticated(session) ==>
      var user := UpsertedUser(old(db.users), old(db.nextId), session.value);
      && db.users == old(db.users)[session.value.email := user]
      && status == Ok
      && body == UserTasks(db.tasks, db.nextId, user.id)
  {
    if !Authenticated(session) {
      return Unauthorized, [];
    }
    var user := db.FindOrCreateUser(session.value);
    status, body := Ok, UserTasks(db.tasks, db.nextId, user.id);
  }

  /** `POST /api/tasks` at time `now`: 201 with the saved task, or 500 when validation fails, in
      which case the user document created on the way stays. */
  method Post(db: Database, session: Option<Session>, body: PostBody, now: int) returns (status: int, created: Option<TaskEntry>)
    requires db.Valid()
    modifies db`users, db`tasks, db`nextId
    ensures db.Valid()
    ensures !Authenticated(session) ==> status == Unauthorized && created == None && unchanged(db)
    ensures Authenticated(session) ==>
      var user := UpsertedUser(old(db.users), old(db.nextId), session.value);
      var id := old(db.nextId) + (if session.value.email in old(db.users) then 0 else 1);
      var saved := SaveNew(PostInput(body, user.id), now);
      && db.users == old(db.users)[session.value.email := user]
      && (saved.Saved? ==>
           status == Created && created == Some(TaskEntry(id, saved.record)) && id !in old(db.tasks)
           && db.tasks == old(db.tasks)[id := saved.record])
      && (saved.Rejected? ==>
           status == InternalServerError && created == None && db.tasks == old(db.tasks))
  {
    if !Authenticated(session) {
      return Unauthorized, None;
    }
    var user := db.FindOrCreateUser(session.value);
    var saved := SaveNew(PostInput(body, user.id), now);
    if saved.Rejected? {
      return InternalServerError, None;
    }
    var id := db.InsertTask(saved.record);
    status, created := Created, Some(TaskEntry(id, saved.record));
  }
}
