/**
 * The database tables the core reads and writes through Prisma: users keyed
 * by id (email is unique), tasks in insertion order, and the activity log.
 * Row ids come from counters; database-assigned timestamps other than a
 * task's createdAt are not modelled.
 */
module Store {
  import opened Wrappers
  import Bcrypt

  /** A user row; `refreshToken` holds the bcrypt digest of the live refresh token, or null. */
  datatype User = User(id: nat, email: string, isVerified: bool, refreshToken: Option<Bcrypt.Digest>)

  datatype Task = Task(id: nat, title: string, description: Option<string>, status: string, userId: nat, createdAt: nat)

  datatype ActivityType =
    | OtpSent | OtpFailed | LoginSuccess | TokenRefresh | Logout
    | TaskCreated | TaskUpdated | TaskDeleted

  datatype Activity = Activity(kind: ActivityType, message: string, userId: Option<nat>)

  ghost predicate HasEmail(users: map<nat, User>, email: string) {
    exists id :: id in users && users[id].email == email
  }

  /** The id of the user with this email (unique in a valid table). */
  ghost function IdOf(users: map<nat, User>, email: string): (id: nat)
    requires HasEmail(users, email)
    ensures id in users && users[id].email == email
  {
    var id :| id in users && users[id].email == email; id
  }

  /** Rows sit under their own id, ids are below the counter, and emails are unique. */
  ghost predicate UsersValid(users: map<nat, User>, nextUserId: nat) {
    && (forall id | id in users :: users[id].id == id && id < nextUserId)
    && (forall a, b | a in users && b in users && users[a].email == users[b].email :: a == b)
  }

  /** Task ids are below the counter and pairwise distinct. */
  ghost predicate TasksValid(tasks: seq<Task>, nextTaskId: nat) {
    && (forall i | 0 <= i < |tasks| :: tasks[i].id < nextTaskId)
    && (forall i, j | 0 <= i < j < |tasks| :: tasks[i].id != tasks[j].id)
  }

  class Db {
    var users: map<nat, User>
    var nextUserId: nat
    var tasks: seq<Task>
    var nextTaskId: nat
    var activities: seq<Activity>

    ghost predicate Valid()
      reads this
    {
      UsersValid(users, nextUserId) && TasksValid(tasks, nextTaskId)
    }

    constructor ()
      ensures Valid()
      ensures users == map[] && tasks == [] && activities == []
    {
      users, nextUserId := map[], 0;
      tasks, nextTaskId := [], 0;
      activities := [];
    }

    /** `prisma.user.findUnique({ where: { email } })`. */
    method FindUserByEmail(email: string) returns (found: Option<nat>)
      requires Valid()
      ensures found.Some? <==> HasEmail(users, email)
      ensures found.Some? ==> found.value in users && users[found.value].email == email
    {
      if id :| id in users && users[id].email == email {
        found := Some(id);
      } else {
        found := None;
      }
    }

    /** `prisma.user.create({ data: { email, isVerified } })` for an email not yet taken. */
    method CreateUser(email: string, isVerified: bool) returns (id: nat)
      requires Valid() && !HasEmail(users, email)
      modifies this`users, this`nextUserId
      ensures Valid()
      ensures id !in old(users)
      ensures users == old(users)[id := User(id, email, isVerified, None)]
    {
      id := nextUserId;
      users := users[id := User(id, email, isVerified, None)];
      nextUserId := nextUserId + 1;
    }

    /** `prisma.user.update({ where: { id }, data: { isVerified: true } })`. */
    method SetVerified(id: nat)
      requires Valid() && id in users
      modifies this`users
      ensures Valid()
      ensures users == old(users)[id := old(users)[id].(isVerified := true)]
    {
      users := users[id := users[id].(isVerified := true)];
    }

    /** `prisma.user.update({ where: { id }, data: { refreshToken } })`. */
    method SetRefreshToken(id: nat, digest: Option<Bcrypt.Digest>)
      requires Valid() && id in users
      modifies this`users
      ensures Valid()
      ensures users == old(users)[id := old(users)[id].(refreshToken := digest)]
    {
      users := users[id := users[id].(refreshToken := digest)];
    }
  }
}
