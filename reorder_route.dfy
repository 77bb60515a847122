/** app/api/tasks/reorder/route.ts: writing each listed task's position into its `order` field. */
module ReorderRoute {
  import opened Wrappers
  import opened TaskModel
  import opened Store

  /** The update filter: the task is the user's and not in the trash. */
  predicate Eligible(rec: TaskRecord, uid: nat)
  {
    rec.userId == uid && !rec.isDeleted
  }

  /** The last position of `id` in `ids`: with repeated ids, the last write is the one that stays. */
  function LastIndex(ids: seq<nat>, id: nat): (i: nat)
    requires id in ids
    ensures i < |ids| && ids[i] == id
    ensures forall j | i < j < |ids| :: ids[j] != id
  {
    if ids[|ids| - 1] == id then |ids| - 1 else LastIndex(ids[..|ids| - 1], id)
  }

  /** One write of the handler: `order := index`, with `updatedAt` maintained by the schema. */
  function Placed(rec: TaskRecord, index: nat, now: int): TaskRecord
  {
    rec.(order := Some(index), updatedAt := now)
  }

  /** The store after all the writes for `ids`. */
  function Reordered(tasks: map<nat, TaskRecord>, uid: nat, ids: seq<nat>, now: int): (r: map<nat, TaskRecord>)
  {
    map id | id in tasks :: if id in ids && Eligible(tasks[id], uid) then Placed(tasks[id], LastIndex(ids, id), now) else tasks[id]
  }

  /** The writes touch no task outside the filter, and of the others only `order` and `updatedAt`. */
  lemma ReorderedExact(tasks: map<nat, TaskRecord>, uid: nat, ids: seq<nat>, now: int, id: nat)
    ensures id in Reordered(tasks, uid, ids, now) <==> id in tasks
    ensures id in tasks && !(id in ids && Eligible(tasks[id], uid)) ==> Reordered(tasks, uid, ids, now)[id] == tasks[id]
    ensures id in tasks && id in ids && Eligible(tasks[id], uid) ==>
      && Reordered(tasks, uid, ids, now)[id].order == Some(LastIndex(ids, id))
      && Reordered(tasks, uid, ids, now)[id] == tasks[id].(order := Some(LastIndex(ids, id)), updatedAt := now)
  {
  }

  /** With distinct ids every eligible task listed at position `i` gets order `i`. */
  lemma ReorderDistinct(tasks: map<nat, TaskRecord>, uid: nat, ids: seq<nat>, now: int, i: int)
    requires forall j, k | 0 <= j < k < |ids| :: ids[j] != ids[k]
    requires 0 <= i < |ids| && ids[i] in tasks && Eligible(tasks[ids[i]], uid)
    ensures Reordered(tasks, uid, ids, now)[ids[i]].order == Some(i)
  {
    var k := LastIndex(ids, ids[i]);
    assert k == i;
  }

  /** Sending the same list again, at any time, leaves the orders as they were: the second run
      only moves `updatedAt`. */
  lemma ReorderAgain(tasks: map<nat, TaskRecord>, uid: nat, ids: seq<nat>, now1: int, now2: int)
    ensures Reordered(Reordered(tasks, uid, ids, now1), uid, ids, now2) == Reordered(tasks, uid, ids, now2)
  {
  }

  /** Appending `id` to a list makes it the last position of `id` and moves no other id's. */
  lemma LastIndexSnoc(pre: seq<nat>, id: nat, x: nat)
    ensures x in pre + [id] <==> x in pre || x == id
    ensures x == id ==> LastIndex(pre + [id], x) == |pre|
    ensures x != id && x in pre ==> LastIndex(pre + [id], x) == LastIndex(pre, x)
  {
    assert (pre + [id])[..|pre|] == pre;
  }

  /** One more write extends the writes for a prefix of the list. */
  lemma {:induction false} ReorderedStep(tasks: map<nat, TaskRecord>, uid: nat, ids: seq<nat>, i: nat, now: int)
    requires i < |ids|
    ensures var before := Reordered(tasks, uid, ids[..i], now);
      var id := ids[i];
      Reordered(tasks, uid, ids[..i + 1], now) ==
        if id in before && Eligible(before[id], uid) then before[id := Placed(before[id], i, now)] else before
  {
    var pre, id := ids[..i], ids[i];
    assert ids[..i + 1] == pre + [id];
    var before := Reordered(tasks, uid, pre, now);
    var after := Reordered(tasks, uid, pre + [id], now);
    var expected := if id in before && Eligible(before[id], uid) then before[id := Placed(before[id], i, now)] else before;
    forall x | x in tasks ensures after[x] == expected[x] {
      LastIndexSnoc(pre, id, x);
      if x == id {
        assert before[x] == (if x in pre && Eligible(tasks[x], uid) then Placed(tasks[x], LastIndex(pre, x), now) else tasks[x]);
        assert Eligible(before[x], uid) == Eligible(tasks[x], uid);
      } else {
        assert expected[x] == before[x];
      }
    }
    assert after.Keys == expected.Keys;
  }

  /** `PATCH /api/tasks/reorder` with `taskIds` (`None` when it is not an array) at time `now`. */
  method Patch(db: Database, session: Option<Session>, taskIds: Option<seq<nat>>, now: int) returns (status: int)
    requires db.Valid()
    modifies db`tasks
    ensures db.Valid()
    ensures !Authenticated(session) ==> status == Unauthorized && db.tasks == old(db.tasks)
    ensures Authenticated(session) && session.value.email !in db.users ==> status == NotFound && db.tasks == old(db.tasks)
    ensures Authenticated(session) && session.value.email in db.users && (taskIds.None? || taskIds.value == []) ==>
      status == BadRequest && db.tasks == old(db.tasks)
    ensures Authenticated(session) && session.value.email in db.users && taskIds.Some? && taskIds.value != [] ==>
      status == Ok && db.tasks == Reordered(old(db.tasks), db.users[session.value.email].id, taskIds.value, now)
  {
    if !Authenticated(session) {
      return Unauthorized;
    }
    if session.value.email !in db.users {
      return NotFound;
    }
    var uid := db.users[session.value.email].id;
    if taskIds.None? || taskIds.value == [] {
      return BadRequest;
    }
    var ids := taskIds.value;
    var i := 0;
    assert ids[..0] == [];
    assert Reordered(db.tasks, uid, [], now) == db.tasks;
    while i < |ids|
      invariant 0 <= i <= |ids|
      invariant db.tasks == Reordered(old(db.tasks), uid, ids[..i], now)
      invariant db.tasks.Keys == old(db.tasks).Keys
    {
      ReorderedStep(old(db.tasks), uid, ids, i, now);
      var id := ids[i];
      if id in db.tasks && db.tasks[id].userId == uid && !db.tasks[id].isDeleted {
        db.tasks := db.tasks[id := db.tasks[id].(order := Some(i), updatedAt := now)];
      }
      i := i + 1;
    }
    assert ids[..i] == ids;
    status := Ok;
  }
}
