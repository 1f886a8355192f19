/**
 * controllers/task.controller.js: task operations scoped to the
 * authenticated user. The table is `db.tasks` in insertion order; update and
 * delete match on the pair (id, userId), so another user's task and a
 * missing one look the same.
 */
module TaskController {
  import opened Wrappers
  import opened Http
  import opened Store
  import opened ActivityService
  import opened Text
  import Jwt

  const NOT_FOUND := "Task not found or not authorized"

  /** The fields an update may set (Prisma leaves absent fields alone). */
  datatype TaskPatch = TaskPatch(title: Option<string>, description: Option<string>, status: Option<string>)

  /** `status || 'pending'`: an absent or empty status becomes "pending". */
  function StatusOrDefault(status: Option<string>): (s: string)
    ensures s != ""
    ensures status.Some? && status.value != "" ==> s == status.value
    ensures status.None? || status.value == "" ==> s == "pending"
  {
    match status
    case Some(given) => if given != "" then given else "pending"
    case None => "pending"
  }

  function OptionalString(s: Option<string>): Json {
    if s.Some? then JStr(s.value) else JNull
  }

  /** The task row as `res.json` sends it: one key per column. */
  function TaskJson(t: Task): (j: Json)
    ensures j.JObj? && j.fields.Keys == {"id", "title", "description", "status", "userId", "createdAt"}
  {
    JObj(map[
      "id" := JNum(t.id), "title" := JStr(t.title), "description" := OptionalString(t.description),
      "status" := JStr(t.status), "userId" := JNum(t.userId), "createdAt" := JNum(t.createdAt)])
  }

  /** The body loses nothing of the row: distinct rows are sent as distinct bodies. */
  lemma TaskJsonInjective(a: Task, b: Task)
    ensures TaskJson(a) == TaskJson(b) ==> a == b
  {
    if TaskJson(a) == TaskJson(b) {
      var fa, fb := TaskJson(a).fields, TaskJson(b).fields;
      assert fa["id"] == fb["id"] && fa["title"] == fb["title"] && fa["description"] == fb["description"];
      assert fa["status"] == fb["status"] && fa["userId"] == fb["userId"] && fa["createdAt"] == fb["createdAt"];
    }
  }

  function TasksJson(ts: seq<Task>): (j: seq<Json>)
    ensures |j| == |ts| && forall i | 0 <= i < |ts| :: j[i] == TaskJson(ts[i])
  {
    if ts == [] then [] else [TaskJson(ts[0])] + TasksJson(ts[1..])
  }

  /**
   * `createTask`: a new row owned by the caller's id from the token (the
   * body has no say in ownership), with status defaulting to "pending",
   * answered with 201 and the row; `task_created` is logged.
   */
  method CreateTask(db: Db, user: Jwt.Payload, title: string, description: Option<string>,
                    status: Option<string>, nowMs: nat, logSucceeds: bool)
    returns (out: Outcome)
    requires db.Valid()
    modifies db`tasks, db`nextTaskId, db`activities
    ensures db.Valid()
    ensures var task := Task(old(db.nextTaskId), title, description, StatusOrDefault(status), user.userId, nowMs);
      && db.tasks == old(db.tasks) + [task]
      && (forall i | 0 <= i < |old(db.tasks)| :: old(db.tasks)[i].id != task.id)
      && out == Replied(Response(201, TaskJson(task)))
      && db.activities == old(db.activities) +
           (if logSucceeds then [Activity(TaskCreated, "Task \"" + title + "\" created", Some(user.userId))] else [])
  {
    var userId := user.userId;
    var task := Task(db.nextTaskId, title, description, StatusOrDefault(status), userId, nowMs);
    db.tasks := db.tasks + [task];
    db.nextTaskId := db.nextTaskId + 1;
    LogActivity(db, TaskCreated, "Task \"" + title + "\" created", Some(userId), logSucceeds);
    return Replied(Response(201, TaskJson(task)));
  }

  predicate NewestFirst(ts: seq<Task>) {
    forall i, j | 0 <= i < j < |ts| :: ts[i].createdAt >= ts[j].createdAt
  }

  /** `where: { userId }`: the caller's rows, in table order. */
  function OwnedBy(ts: seq<Task>, userId: nat): (r: seq<Task>)
    ensures forall t :: t in r <==> t in ts && t.userId == userId
  {
    if ts == [] then []
    else (if ts[0].userId == userId then [ts[0]] else []) + OwnedBy(ts[1..], userId)
  }

  /** A row no older than the head of a newest-first list can go in front of it. */
  lemma ConsNewestFirst(t: Task, sorted: seq<Task>)
    requires NewestFirst(sorted)
    requires sorted == [] || t.createdAt >= sorted[0].createdAt
    ensures NewestFirst([t] + sorted)
  {
    var r := [t] + sorted;
    forall i, j | 0 <= i < j < |r| ensures r[i].createdAt >= r[j].createdAt {
      if i == 0 {
        assert r[j] == sorted[j - 1];
      } else {
        assert r[i] == sorted[i - 1] && r[j] == sorted[j - 1];
      }
    }
  }

  function InsertNewestFirst(t: Task, sorted: seq<Task>): (r: seq<Task>)
    requires NewestFirst(sorted)
    ensures NewestFirst(r) && multiset(r) == multiset(sorted) + multiset{t}
    ensures |r| == |sorted| + 1 && (r[0] == t || (sorted != [] && r[0] == sorted[0]))
  {
    if sorted == [] || t.createdAt >= sorted[0].createdAt then
      ConsNewestFirst(t, sorted);
      [t] + sorted
    else
      assert NewestFirst(sorted[1..]);
      var rest := InsertNewestFirst(t, sorted[1..]);
      assert sorted == [sorted[0]] + sorted[1..];
      ConsNewestFirst(sorted[0], rest);
      [sorted[0]] + rest
  }

  /** `orderBy: { createdAt: 'desc' }` (rows with equal times may come in any order). */
  function SortNewestFirst(ts: seq<Task>): (r: seq<Task>)
    ensures NewestFirst(r) && multiset(r) == multiset(ts)
  {
    if ts == [] then []
    else
      assert ts == [ts[0]] + ts[1..];
      InsertNewestFirst(ts[0], SortNewestFirst(ts[1..]))
  }

  /**
   * `prisma.task.findMany({ where: { userId }, orderBy: { createdAt: 'desc' } })`:
   * every row of the caller's, each as often as in the table, and no other,
   * newest first.
   */
  function FindOwnTasks(ts: seq<Task>, userId: nat): (r: seq<Task>)
    ensures NewestFirst(r)
    ensures multiset(r) == multiset(OwnedBy(ts, userId))
    ensures forall t :: t in r <==> t in ts && t.userId == userId
  {
    var r := SortNewestFirst(OwnedBy(ts, userId));
    assert forall t :: t in r <==> t in multiset(r);
    r
  }

  /** `getTasks`: 200 with the caller's tasks, newest first; nothing changes. */
  method GetTasks(db: Db, user: Jwt.Payload) returns (out: Outcome)
    ensures out == Replied(Response(200, JArr(TasksJson(FindOwnTasks(db.tasks, user.userId)))))
  {
    var tasks := FindOwnTasks(db.tasks, user.userId);
    return Replied(Response(200, JArr(TasksJson(tasks))));
  }

  predicate Matches(t: Task, id: nat, userId: nat) {
    t.id == id && t.userId == userId
  }

  /** Prisma's `data: updates`: set the fields given, keep the rest. Identity and owner never change. */
  function ApplyPatch(t: Task, p: TaskPatch): (r: Task)
    ensures r.id == t.id && r.userId == t.userId && r.createdAt == t.createdAt
  {
    t.(title := if p.title.Some? then p.title.value else t.title,
       description := if p.description.Some? then p.description else t.description,
       status := if p.status.Some? then p.status.value else t.status)
  }

  predicate NoneMatch(ts: seq<Task>, id: nat, userId: nat) {
    forall t | t in ts :: !Matches(t, id, userId)
  }

  /** How many rows match (id, userId): the `count` that `updateMany` and `deleteMany` report. */
  function CountMatching(ts: seq<Task>, id: nat, userId: nat): (c: nat)
    ensures c <= |ts|
    ensures c == 0 <==> NoneMatch(ts, id, userId)
  {
    if ts == [] then 0
    else (if Matches(ts[0], id, userId) then 1 else 0) + CountMatching(ts[1..], id, userId)
  }

  /** `updateMany({ where: { id, userId }, data })`: the matching rows patched, every other row as it was. */
  function UpdateMatching(ts: seq<Task>, id: nat, userId: nat, p: TaskPatch): (r: seq<Task>)
    ensures |r| == |ts|
    ensures forall i | 0 <= i < |ts| :: r[i] == if Matches(ts[i], id, userId) then ApplyPatch(ts[i], p) else ts[i]
  {
    if ts == [] then []
    else [if Matches(ts[0], id, userId) then ApplyPatch(ts[0], p) else ts[0]] + UpdateMatching(ts[1..], id, userId, p)
  }

  /** `deleteMany({ where: { id, userId } })`: exactly the matching rows go, the rest keep their order. */
  function RemoveMatching(ts: seq<Task>, id: nat, userId: nat): (r: seq<Task>)
    ensures forall t :: t in r <==> t in ts && !Matches(t, id, userId)
    ensures |r| == |ts| - CountMatching(ts, id, userId)
  {
    if ts == [] then []
    else (if Matches(ts[0], id, userId) then [] else [ts[0]]) + RemoveMatching(ts[1..], id, userId)
  }

  /** A row with a fresh, bounded id can go in front of a valid table. */
  lemma ConsKeepsTableValid(t: Task, rest: seq<Task>, nextTaskId: nat)
    requires TasksValid(rest, nextTaskId) && t.id < nextTaskId
    requires forall k | 0 <= k < |rest| :: rest[k].id != t.id
    ensures TasksValid([t] + rest, nextTaskId)
  {
    var r := [t] + rest;
    forall i | 0 <= i < |r| ensures r[i].id < nextTaskId {
      if i > 0 {
        assert r[i] == rest[i - 1];
      }
    }
    forall i, j | 0 <= i < j < |r| ensures r[i].id != r[j].id {
      if i == 0 {
        assert r[j] == rest[j - 1];
      } else {
        assert r[i] == rest[i - 1] && r[j] == rest[j - 1];
      }
    }
  }

  /** Deleting rows keeps the task table's ids bounded and distinct. */
  lemma {:induction false} RemoveMatchingKeepsTableValid(ts: seq<Task>, id: nat, userId: nat, nextTaskId: nat)
    requires TasksValid(ts, nextTaskId)
    ensures TasksValid(RemoveMatching(ts, id, userId), nextTaskId)
  {
    if ts != [] {
      var rest := RemoveMatching(ts[1..], id, userId);
      assert TasksValid(ts[1..], nextTaskId);
      RemoveMatchingKeepsTableValid(ts[1..], id, userId, nextTaskId);
      if !Matches(ts[0], id, userId) {
        forall k | 0 <= k < |rest| ensures rest[k].id != ts[0].id {
          assert rest[k] in ts[1..];
        }
        ConsKeepsTableValid(ts[0], rest, nextTaskId);
      }
    }
  }

  /** With distinct ids, at most one row matches. */
  lemma {:induction false} AtMostOneMatch(ts: seq<Task>, id: nat, userId: nat)
    requires forall i, j | 0 <= i < j < |ts| :: ts[i].id != ts[j].id
    ensures CountMatching(ts, id, userId) <= 1
  {
    if ts != [] {
      AtMostOneMatch(ts[1..], id, userId);
      if Matches(ts[0], id, userId) {
        NoMatchWhenIdAbsentOrForeign(ts[1..], id, userId);
      }
    }
  }

  /**
   * A missing id and another user's id both give a count of 0, and so the
   * same 404.
   */
  lemma {:induction false} NoMatchWhenIdAbsentOrForeign(ts: seq<Task>, id: nat, userId: nat)
    requires forall i | 0 <= i < |ts| :: ts[i].id == id ==> ts[i].userId != userId
    ensures CountMatching(ts, id, userId) == 0
  {
    if ts != [] {
      NoMatchWhenIdAbsentOrForeign(ts[1..], id, userId);
    }
  }

  /**
   * `updateTask`: patch the caller's row with that id. Count 0 gives 404 and
   * logs nothing; otherwise 200 and `task_updated`.
   */
  method UpdateTask(db: Db, user: Jwt.Payload, id: nat, updates: TaskPatch, logSucceeds: bool)
    returns (out: Outcome)
    requires db.Valid()
    modifies db`tasks, db`activities
    ensures db.Valid()
    ensures db.tasks == UpdateMatching(old(db.tasks), id, user.userId, updates)
    ensures var matched := CountMatching(old(db.tasks), id, user.userId) != 0;
      && out == Replied(if matched then Response(200, MessageBody("Task updated successfully"))
                        else Response(404, MessageBody(NOT_FOUND)))
      && db.activities == old(db.activities) +
           (if matched && logSucceeds then [Activity(TaskUpdated, "Task " + ToString(id) + " updated", Some(user.userId))] else [])
  {
    var userId := user.userId;
    var count := CountMatching(db.tasks, id, userId);
    db.tasks := UpdateMatching(db.tasks, id, userId, updates);
    if count == 0 {
      return Replied(Response(404, MessageBody(NOT_FOUND)));
    }
    LogActivity(db, TaskUpdated, "Task " + ToString(id) + " updated", Some(userId), logSucceeds);
    return Replied(Response(200, MessageBody("Task updated successfully")));
  }

  /**
   * `deleteTask`: remove the caller's row with that id. Count 0 gives 404 and
   * logs nothing; otherwise 200 and `task_deleted`.
   */
  method DeleteTask(db: Db, user: Jwt.Payload, id: nat, logSucceeds: bool) returns (out: Outcome)
    requires db.Valid()
    modifies db`tasks, db`activities
    ensures db.Valid()
    ensures db.tasks == RemoveMatching(old(db.tasks), id, user.userId)
    ensures var matched := CountMatching(old(db.tasks), id, user.userId) != 0;
      && out == Replied(if matched then Response(200, MessageBody("Task deleted successfully"))
                        else Response(404, MessageBody(NOT_FOUND)))
      && db.activities == old(db.activities) +
           (if matched && logSucceeds then [Activity(TaskDeleted, "Task " + ToString(id) + " deleted", Some(user.userId))] else [])
  {
    var userId := user.userId;
    var count := CountMatching(db.tasks, id, userId);
    RemoveMatchingKeepsTableValid(db.tasks, id, userId, db.nextTaskId);
    db.tasks := RemoveMatching(db.tasks, id, userId);
    if count == 0 {
      return Replied(Response(404, MessageBody(NOT_FOUND)));
    }
    LogActivity(db, TaskDeleted, "Task " + ToString(id) + " deleted", Some(userId), logSucceeds);
    return Replied(Response(200, MessageBody("Task deleted successfully")));
  }
}
