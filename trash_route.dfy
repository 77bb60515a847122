/** app/api/tasks/trash/route.ts: listing the user's trashed tasks and emptying the trash. */
module TrashRoute {
  import opened Wrappers
  import opened Seqs
  import opened TaskModel
  import opened Store

  /** The query filter `{ userId, isDeleted: true }`. */
  function InTrashOf(uid: nat): TaskEntry -> bool
  {
    (e: TaskEntry) => e.rec.userId == uid && e.rec.isDeleted
  }

  function HasDeletedAt(): TaskEntry -> bool
  {
    (e: TaskEntry) => e.rec.deletedAt.Some?
  }

  function LacksDeletedAt(): TaskEntry -> bool
  {
    (e: TaskEntry) => e.rec.deletedAt.None?
  }

  /** `sort({ deletedAt: -1 })` as an ascending key on the tasks that have the field. */
  function LatestDeletedFirst(): TaskEntry -> int
  {
    (e: TaskEntry) => if e.rec.deletedAt.Some? then -e.rec.deletedAt.value else 0
  }

  /** The trash listing: most recently deleted first; a task without `deletedAt` sorts as the
      smallest value, so after all the others. */
  function TrashListing(tasks: map<nat, TaskRecord>, bound: nat, uid: nat): (r: seq<TaskEntry>)
  {
    var q := Query(tasks, bound, InTrashOf(uid));
    SortBy(Filter(q, HasDeletedAt()), LatestDeletedFirst()) + Filter(q, LacksDeletedAt())
  }

  /** The listing is a reordering of exactly the user's trashed tasks. */
  lemma {:induction false} TrashListingMembers(tasks: map<nat, TaskRecord>, bound: nat, uid: nat, e: TaskEntry)
    requires forall id | id in tasks :: id < bound
    ensures multiset(TrashListing(tasks, bound, uid)) == multiset(Query(tasks, bound, InTrashOf(uid)))
    ensures e in TrashListing(tasks, bound, uid) <==> e.id in tasks && tasks[e.id] == e.rec && e.rec.userId == uid && e.rec.isDeleted
  {
    var q := Query(tasks, bound, InTrashOf(uid));
    var r := TrashListing(tasks, bound, uid);
    QueryExact(tasks, bound, InTrashOf(uid), e);
    FilterPartition(q, HasDeletedAt(), LacksDeletedAt());
    assert multiset(r) == multiset(q);
    assert e in r <==> e in multiset(r);
    assert e in q <==> e in multiset(q);
  }

  /** The listing runs by `deletedAt` descending, with the tasks that lack it at the end. */
  lemma {:induction false} TrashListingOrder(tasks: map<nat, TaskRecord>, bound: nat, uid: nat, i: int, j: int)
    requires 0 <= i < j < |TrashListing(tasks, bound, uid)|
    ensures var r := TrashListing(tasks, bound, uid);
      && (r[i].rec.deletedAt.None? ==> r[j].rec.deletedAt.None?)
      && (r[j].rec.deletedAt.Some? ==> r[i].rec.deletedAt.Some? && r[i].rec.deletedAt.value >= r[j].rec.deletedAt.value)
  {
    var q := Query(tasks, bound, InTrashOf(uid));
    var dated, undated := Filter(q, HasDeletedAt()), Filter(q, LacksDeletedAt());
    var sorted := SortBy(dated, LatestDeletedFirst());
    assert TrashListing(tasks, bound, uid) == sorted + undated;
    forall k | 0 <= k < |sorted| ensures sorted[k].rec.deletedAt.Some? {
      DatedAfterSort(dated, k);
    }
    forall k | 0 <= k < |undated| ensures undated[k].rec.deletedAt.None? {
      assert LacksDeletedAt()(undated[k]);
    }
    SortBySorted(dated, LatestDeletedFirst());
    DatedThenUndated(sorted, undated, i, j);
  }

  lemma DatedThenUndated(sorted: seq<TaskEntry>, undated: seq<TaskEntry>, i: int, j: int)
    requires forall k | 0 <= k < |sorted| :: sorted[k].rec.deletedAt.Some?
    requires forall k | 0 <= k < |undated| :: undated[k].rec.deletedAt.None?
    requires SortedBy(sorted, LatestDeletedFirst())
    requires 0 <= i < j < |sorted + undated|
    ensures var r := sorted + undated;
      && (r[i].rec.deletedAt.None? ==> r[j].rec.deletedAt.None?)
      && (r[j].rec.deletedAt.Some? ==> r[i].rec.deletedAt.Some? && r[i].rec.deletedAt.value >= r[j].rec.deletedAt.value)
  {
    var r := sorted + undated;
    if j < |sorted| {
      assert r[i] == sorted[i] && r[j] == sorted[j];
      assert LatestDeletedFirst()(sorted[i]) <= LatestDeletedFirst()(sorted[j]);
    } else {
      assert r[j] == undated[j - |sorted|];
      if i < |sorted| {
        assert r[i] == sorted[i];
      } else {
        assert r[i] == undated[i - |sorted|];
      }
    }
  }

  lemma DatedAfterSort(dated: seq<TaskEntry>, i: int)
    requires forall k | 0 <= k < |dated| :: dated[k].rec.deletedAt.Some?
    requires 0 <= i < |SortBy(dated, LatestDeletedFirst())|
    ensures SortBy(dated, LatestDeletedFirst())[i].rec.deletedAt.Some?
  {
    var sorted := SortBy(dated, LatestDeletedFirst());
    assert sorted[i] in multiset(dated);
  }

  /** Emptying the trash keeps every active task and every other user's task, unchanged. */
  lemma EmptyTrashKeeps(tasks: map<nat, TaskRecord>, uid: nat, id: nat)
    ensures id in RemoveWhere(tasks, InTrashOf(uid)) <==> id in tasks && (tasks[id].userId != uid || !tasks[id].isDeleted)
    ensures id in RemoveWhere(tasks, InTrashOf(uid)) ==> RemoveWhere(tasks, InTrashOf(uid))[id] == tasks[id]
    ensures Matching(RemoveWhere(tasks, InTrashOf(uid)), InTrashOf(uid)) == {}
  {
    RemoveWhereExact(tasks, InTrashOf(uid));
  }

  /** `GET /api/tasks/trash`. */
  method Get(db: Database, session: Option<Session>) returns (status: int, body: seq<TaskEntry>)
    requires db.Valid()
    ensures !Authenticated(session) ==> status == Unauthorized && body == []
    ensures Authenticated(session) && session.value.email !in db.users ==> status == NotFound && body == []
    ensures Authenticated(session) && session.value.email in db.users ==>
      status == Ok && body == TrashListing(db.tasks, db.nextId, db.users[session.value.email].id)
  {
    if !Authenticated(session) {
      return Unauthorized, [];
    }
    if session.value.email !in db.users {
      return NotFound, [];
    }
    var uid := db.users[session.value.email].id;
    status, body := Ok, TrashListing(db.tasks, db.nextId, uid);
  }

  /** `DELETE /api/tasks/trash`: removes the user's trashed tasks and reports how many. */
  method Delete(db: Database, session: Option<Session>) returns (status: int, deletedCount: nat)
    requires db.Valid()
    modifies db`tasks
    ensures db.Valid()
    ensures !Authenticated(session) ==> status == Unauthorized && deletedCount == 0 && db.tasks == old(db.tasks)
    ensures Authenticated(session) && session.value.email !in db.users ==>
      status == NotFound && deletedCount == 0 && db.tasks == old(db.tasks)
    ensures Authenticated(session) && session.value.email in db.users ==>
      var uid := db.users[session.value.email].id;
      && status == Ok
      && db.tasks == RemoveWhere(old(db.tasks), InTrashOf(uid))
      && deletedCount == |Matching(old(db.tasks), InTrashOf(uid))|
      && |db.tasks| + deletedCount == |old(db.tasks)|
  {
    if !Authenticated(session) {
      return Unauthorized, 0;
    }
    if session.value.email !in db.users {
      return NotFound, 0;
    }
    var uid := db.users[session.value.email].id;
    RemoveWhereExact(db.tasks, InTrashOf(uid));
    deletedCount := |Matching(db.tasks, InTrashOf(uid))|;
    db.tasks := RemoveWhere(db.tasks, InTrashOf(uid));
    status := Ok;
  }
}
