/** app/api/cleanup/route.ts: the retention sweep that deletes tasks trashed over 30 days ago. */
module CleanupRoute {
  import opened Wrappers
  import opened Time
  import opened TaskModel
  import opened Store

  /** `thirtyDaysAgo`: thirty days of milliseconds before `now`. */
  function Cutoff(now: int): int
  {
    now - 30 * MsPerDay
  }

  /** The filter `{ isDeleted: true, deletedAt: { $lt: cutoff } }`; a task without `deletedAt`
      never matches. */
  function Expired(cutoff: int): TaskEntry -> bool
  {
    (e: TaskEntry) => e.rec.isDeleted && e.rec.deletedAt.Some? && e.rec.deletedAt.value < cutoff
  }

  /** The sweep removes, for every user, exactly the trashed tasks deleted strictly before the
      cutoff; a task deleted exactly at the cutoff, an active task or a recently trashed one stays. */
  lemma SweepExact(tasks: map<nat, TaskRecord>, now: int, id: nat)
    requires id in tasks
    ensures id !in RemoveWhere(tasks, Expired(Cutoff(now))) <==>
      tasks[id].isDeleted && tasks[id].deletedAt.Some? && tasks[id].deletedAt.value < now - 30 * MsPerDay
    ensures tasks[id].deletedAt == Some(Cutoff(now)) ==> id in RemoveWhere(tasks, Expired(Cutoff(now)))
    ensures !tasks[id].isDeleted ==> id in RemoveWhere(tasks, Expired(Cutoff(now))) && RemoveWhere(tasks, Expired(Cutoff(now)))[id] == tasks[id]
  {
  }

  /** A second sweep at the same time or earlier finds nothing left to remove. */
  lemma {:induction false} SweepAgainRemovesNothing(tasks: map<nat, TaskRecord>, now: int, later: int)
    requires later <= now
    ensures Matching(RemoveWhere(tasks, Expired(Cutoff(now))), Expired(Cutoff(later))) == {}
  {
    var r := RemoveWhere(tasks, Expired(Cutoff(now)));
    forall id | id in r ensures !Expired(Cutoff(later))(TaskEntry(id, r[id])) {
      assert r[id] == tasks[id];
    }
  }

  /** `POST /api/cleanup` at time `now`. No session is required. */
  method Post(db: Database, now: int) returns (status: int, deletedCount: nat)
    requires db.Valid()
    modifies db`tasks
    ensures db.Valid()
    ensures status == Ok
    ensures db.tasks == RemoveWhere(old(db.tasks), Expired(Cutoff(now)))
    ensures deletedCount == |Matching(old(db.tasks), Expired(Cutoff(now)))|
    ensures |db.tasks| + deletedCount == |old(db.tasks)|
  {
    var cutoff := now - 30 * MsPerDay;
    RemoveWhereExact(db.tasks, Expired(cutoff));
    deletedCount := |Matching(db.tasks, Expired(cutoff))|;
    db.tasks := RemoveWhere(db.tasks, Expired(cutoff));
    status := Ok;
  }
}
