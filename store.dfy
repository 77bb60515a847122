/** The document store behind the API routes: users looked up by their unique e-mail, tasks by
    id, and fresh ids drawn from a counter. Queries are filters over the tasks in id order. */
module Store {
  import opened Wrappers
  import opened Seqs
  import opened TaskModel

  /** A user document; `password` and `theme` are absent for an account that never set them. */
  datatype UserRecord = UserRecord(
    id: nat, name: string, email: string, image: Option<string>, password: Option<string>, theme: Option<string>)

  /** The signed-in account as the session reports it. */
  datatype Session = Session(email: string, name: string, image: Option<string>)

  /** `session?.user?.email` is truthy. */
  predicate Authenticated(session: Option<Session>)
  {
    session.Some? && session.value.email != []
  }

  /** `email.split('@')[0]`: everything before the first '@'. */
  function LocalPart(email: string): (r: string)
    ensures |r| <= |email| && r == email[..|r|] && '@' !in r
    ensures |r| < |email| ==> email[|r|] == '@'
  {
    if email == [] || email[0] == '@' then [] else [email[0]] + LocalPart(email[1..])
  }

  /** The name a user document is created with: the session's name, or else the e-mail's local part. */
  function DefaultName(s: Session): string
  {
    if s.name != [] then s.name else LocalPart(s.email)
  }

  /** The user document a route works with after `findOne`, creating one from the session when
      none exists: an existing document as it is, else a new one under the next id. */
  function UpsertedUser(users: map<string, UserRecord>, nextId: nat, s: Session): (u: UserRecord)
    ensures u.email == s.email || s.email in users
  {
    if s.email in users then users[s.email]
    else UserRecord(nextId, DefaultName(s), s.email, s.image, None, None)
  }

  /** The HTTP status codes the routes answer with. */
  const Ok: int := 200
  const Created: int := 201
  const BadRequest: int := 400
  const Unauthorized: int := 401
  const NotFound: int := 404
  const InternalServerError: int := 500

  /** A task with its id, as a query returns it. */
  datatype TaskEntry = TaskEntry(id: nat, rec: TaskRecord)

  /** The tasks with id below `bound`, in ascending id order. */
  function Entries(tasks: map<nat, TaskRecord>, bound: nat): (r: seq<TaskEntry>)
    ensures forall e | e in r :: e.id in tasks && tasks[e.id] == e.rec && e.id < bound
    ensures forall id | id in tasks && id < bound :: TaskEntry(id, tasks[id]) in r
    ensures forall i, j | 0 <= i < j < |r| :: r[i].id < r[j].id
  {
    if bound == 0 then []
    else
      var prev := Entries(tasks, bound - 1);
      if bound - 1 in tasks then prev + [TaskEntry(bound - 1, tasks[bound - 1])] else prev
  }

  /** The tasks that satisfy `p`, in id order. */
  function Query(tasks: map<nat, TaskRecord>, bound: nat, p: TaskEntry -> bool): (r: seq<TaskEntry>)
  {
    Filter(Entries(tasks, bound), p)
  }

  /** A query returns each matching task once, and nothing else. */
  lemma QueryExact(tasks: map<nat, TaskRecord>, bound: nat, p: TaskEntry -> bool, e: TaskEntry)
    requires forall id | id in tasks :: id < bound
    ensures e in Query(tasks, bound, p) <==> e.id in tasks && tasks[e.id] == e.rec && p(e)
    ensures forall i, j | 0 <= i < j < |Query(tasks, bound, p)| :: Query(tasks, bound, p)[i].id != Query(tasks, bound, p)[j].id
  {
    var es := Entries(tasks, bound);
    FilterIsSubsequence(es, p);
    SubsequenceKeepsIncreasingIds(Query(tasks, bound, p), es);
  }

  lemma {:induction false} SubsequenceKeepsIncreasingIds(r: seq<TaskEntry>, s: seq<TaskEntry>)
    requires IsSubsequence(r, s)
    requires forall i, j | 0 <= i < j < |s| :: s[i].id < s[j].id
    ensures forall i, j | 0 <= i < j < |r| :: r[i].id < r[j].id
    ensures forall x | x in r :: x in s
    decreases |s|
  {
    if r != [] && s != [] {
      if r[0] == s[0] && IsSubsequence(r[1..], s[1..]) {
        SubsequenceKeepsIncreasingIds(r[1..], s[1..]);
        forall j | 0 < j < |r| ensures r[0].id < r[j].id {
          assert r[j] == r[1..][j - 1];
          assert r[j] in r[1..];
          assert r[j] in s[1..];
          var k :| 0 <= k < |s| - 1 && s[1..][k] == r[j];
          assert s[k + 1] == r[j];
        }
        forall x | x in r ensures x in s {
          if x != r[0] {
            var j :| 0 < j < |r| && r[j] == x;
            assert x in r[1..];
          }
        }
        forall i, j | 0 <= i < j < |r| ensures r[i].id < r[j].id {
          if i > 0 {
            assert r[i] == r[1..][i - 1] && r[j] == r[1..][j - 1];
          }
        }
      } else {
        SubsequenceKeepsIncreasingIds(r, s[1..]);
      }
    }
  }

  /** `deleteMany(filter)`: the tasks that match go, the rest stay as they are. */
  function RemoveWhere(tasks: map<nat, TaskRecord>, p: TaskEntry -> bool): (r: map<nat, TaskRecord>)
  {
    map id | id in tasks && !p(TaskEntry(id, tasks[id])) :: tasks[id]
  }

  /** The ids of the tasks that match. */
  function Matching(tasks: map<nat, TaskRecord>, p: TaskEntry -> bool): (ids: set<nat>)
    ensures ids <= tasks.Keys
  {
    set id | id in tasks && p(TaskEntry(id, tasks[id]))
  }

  /** A removal keeps exactly the non-matching tasks unchanged, reports as many as the store lost,
      and leaves nothing for a second removal. */
  lemma {:induction false} RemoveWhereExact(tasks: map<nat, TaskRecord>, p: TaskEntry -> bool)
    ensures forall id :: id in RemoveWhere(tasks, p) <==> id in tasks && !p(TaskEntry(id, tasks[id]))
    ensures forall id | id in RemoveWhere(tasks, p) :: RemoveWhere(tasks, p)[id] == tasks[id]
    ensures |RemoveWhere(tasks, p)| + |Matching(tasks, p)| == |tasks|
    ensures Matching(RemoveWhere(tasks, p), p) == {}
    ensures RemoveWhere(RemoveWhere(tasks, p), p) == RemoveWhere(tasks, p)
  {
    var r := RemoveWhere(tasks, p);
    assert r.Keys == tasks.Keys - Matching(tasks, p);
  }

  /** The store. `Valid` says every id in use is below the counter, so the counter is always fresh. */
  class Database {
    var users: map<string, UserRecord>
    var tasks: map<nat, TaskRecord>
    var nextId: nat

    ghost predicate Valid()
      reads this
    {
      && (forall e | e in users :: users[e].email == e && users[e].id < nextId)
      && (forall id | id in tasks :: id < nextId)
    }

    constructor ()
      ensures Valid() && users == map[] && tasks == map[] && nextId == 0
    {
      users, tasks, nextId := map[], map[], 0;
    }

    /** `User.findOne({ email })`, creating the document from the session when there is none. */
    method FindOrCreateUser(s: Session) returns (user: UserRecord)
      requires Valid()
      modifies this`users, this`nextId
      ensures Valid()
      ensures user == UpsertedUser(old(users), old(nextId), s) && users == old(users)[s.email := user]
      ensures nextId == old(nextId) + (if s.email in old(users) then 0 else 1)
    {
      if s.email in users {
        return users[s.email];
      }
      user := UserRecord(nextId, DefaultName(s), s.email, s.image, None, None);
      users := users[s.email := user];
      nextId := nextId + 1;
    }

    /** Inserts a task under a fresh id. */
    method InsertTask(rec: TaskRecord) returns (id: nat)
      requires Valid()
      modifies this`tasks, this`nextId
      ensures Valid()
      ensures id == old(nextId) && id !in old(tasks) && tasks == old(tasks)[id := rec] && nextId == id + 1
    {
      id := nextId;
      tasks := tasks[id := rec];
      nextId := nextId + 1;
    }
  }
}
