/**
 * The two collections, `users` and `tasks`, keyed by ObjectId, and the
 * model-level operations that touch them: `getAuthToken`, `findByCredentials`
 * and the `pre('remove')` cascade.
 */
module Store {
  import opened Wrappers
  import opened Text
  import opened Crypto
  import opened TaskModel
  import opened UserModel

  const UnableToLogin: string := "Unable to login"

  /** The tasks not owned by `owner`, each unchanged (`Task.deleteMany({ owner })` run on `tasks`). */
  function WithoutOwner(tasks: map<nat, Task>, owner: nat): (r: map<nat, Task>)
    ensures forall k :: k in r <==> k in tasks && tasks[k].owner != owner
    ensures forall k :: k in r ==> r[k] == tasks[k]
  {
    map k | k in tasks && tasks[k].owner != owner :: tasks[k]
  }

  /** After the cascade nobody's tasks but `owner`'s are gone, and `owner` has none left. */
  lemma WithoutOwnerCascade(tasks: map<nat, Task>, owner: nat)
    ensures forall k :: k in WithoutOwner(tasks, owner) ==> WithoutOwner(tasks, owner)[k].owner != owner
    ensures forall k :: k in tasks && tasks[k].owner != owner ==> k in WithoutOwner(tasks, owner)
    ensures WithoutOwner(tasks, owner).Keys == tasks.Keys - set k | k in tasks && tasks[k].owner == owner
  {
  }

  ghost predicate UsersValid(users: map<nat, Account>, bound: nat) {
    forall id :: id in users ==> id < bound && users[id].id == id && StoredAccount(users[id])
  }

  ghost predicate TasksValid(tasks: map<nat, Task>, bound: nat) {
    forall id :: id in tasks ==> id < bound && tasks[id].id == id && StoredTask(tasks[id])
  }

  /** Storing one more valid account under its own id keeps the collection valid. */
  lemma UsersValidUpdate(users: map<nat, Account>, bound: nat, a: Account)
    requires UsersValid(users, bound) && a.id < bound && StoredAccount(a)
    ensures UsersValid(users[a.id := a], bound)
  {
  }

  lemma UsersValidRemove(users: map<nat, Account>, bound: nat, id: nat)
    requires UsersValid(users, bound)
    ensures UsersValid(users - {id}, bound)
  {
  }

  lemma TasksValidUpdate(tasks: map<nat, Task>, bound: nat, t: Task)
    requires TasksValid(tasks, bound) && t.id < bound && StoredTask(t)
    ensures TasksValid(tasks[t.id := t], bound)
  {
  }

  lemma TasksValidRemove(tasks: map<nat, Task>, bound: nat, id: nat)
    requires TasksValid(tasks, bound)
    ensures TasksValid(tasks - {id}, bound)
  {
  }

  lemma TasksValidWithoutOwner(tasks: map<nat, Task>, bound: nat, owner: nat)
    requires TasksValid(tasks, bound)
    ensures TasksValid(WithoutOwner(tasks, owner), bound)
  {
  }

  class Db {
    var users: map<nat, Account>
    var tasks: map<nat, Task>
    /** The next ObjectId to hand out; users and tasks draw from one sequence. */
    var nextId: nat

    /** Every record lies under its own id, below the id counter, and passes its schema. */
    ghost predicate Valid()
      reads this
    {
      UsersValid(users, nextId) && TasksValid(tasks, nextId)
    }

    constructor ()
      ensures Valid()
      ensures users == map[] && tasks == map[] && nextId == 0
    {
      users := map[];
      tasks := map[];
      nextId := 0;
    }

    /**
     * `user.getAuthToken()`: sign a token for the account, append it after
     * every token already listed and save. The save cannot fail: the account
     * was valid and its password is not modified.
     */
    method GetAuthToken(id: nat, now: nat) returns (token: string)
      requires Valid() && id in users
      modifies this
      ensures Valid()
      ensures token == Sign(id, now)
      ensures users == old(users)[id := old(users)[id].(tokens := old(users)[id].tokens + [token])]
      ensures tasks == old(tasks) && nextId == old(nextId)
    {
      token := Sign(id, now);
      var issued := users[id].(tokens := users[id].tokens + [token]);
      var saved := Save(issued, false, {});
      assert saved.Ok?;
      UsersValidUpdate(users, nextId, saved.value);
      users := users[id := saved.value];
      assert UsersValid(users, nextId) && TasksValid(tasks, nextId);
    }

    /** `user.save()` of an account already stored, once its save succeeded. */
    method WriteAccount(a: Account)
      requires Valid() && a.id in users && StoredAccount(a)
      modifies this
      ensures Valid()
      ensures users == old(users)[a.id := a]
      ensures tasks == old(tasks) && nextId == old(nextId)
    {
      UsersValidUpdate(users, nextId, a);
      users := users[a.id := a];
      assert UsersValid(users, nextId) && TasksValid(tasks, nextId);
    }

    /** `new User(...).save()` of an account under a fresh id. */
    method InsertAccount(a: Account)
      requires Valid() && a.id == nextId && StoredAccount(a)
      modifies this
      ensures Valid()
      ensures users == old(users)[a.id := a] && nextId == old(nextId) + 1
      ensures tasks == old(tasks)
    {
      UsersValidUpdate(users, nextId + 1, a);
      users := users[a.id := a];
      nextId := nextId + 1;
      assert UsersValid(users, nextId) && TasksValid(tasks, nextId);
    }

    /** `new Task(...).save()` of a task under a fresh id. */
    method InsertTask(t: Task)
      requires Valid() && t.id == nextId && StoredTask(t)
      modifies this
      ensures Valid()
      ensures tasks == old(tasks)[t.id := t] && nextId == old(nextId) + 1
      ensures users == old(users)
    {
      TasksValidUpdate(tasks, nextId + 1, t);
      tasks := tasks[t.id := t];
      nextId := nextId + 1;
      assert UsersValid(users, nextId) && TasksValid(tasks, nextId);
    }

    /**
     * `User.findByCredentials(email, password)`: the account stored under the
     * e-mail (the query runs the e-mail setters on its value), provided the
     * password matches its digest. An unknown e-mail and a wrong password
     * give the same error.
     */
    method FindByCredentials(email: string, password: string) returns (r: Result<nat, string>)
      ensures r.Ok? ==> r.value in users && users[r.value].email == NormaliseEmail(email)
                        && Compare(password, users[r.value].password)
      ensures r.Err? ==> r.error == UnableToLogin
      ensures (forall id :: id in users ==> users[id].email != NormaliseEmail(email)) ==> r.Err?
      ensures (forall id :: id in users && users[id].email == NormaliseEmail(email) ==>
                 !Compare(password, users[id].password)) ==> r.Err?
      ensures ((exists id :: id in users && users[id].email == NormaliseEmail(email))
               && (forall id :: id in users && users[id].email == NormaliseEmail(email) ==>
                     Compare(password, users[id].password))) ==> r.Ok?
    {
      var e := NormaliseEmail(email);
      if id :| id in users && users[id].email == e {
        if Compare(password, users[id].password) {
          return Ok(id);
        }
      }
      return Err(UnableToLogin);
    }

    /**
     * `user.remove()` with its `pre('remove')` hook: every task the account
     * owns is deleted first, then the account itself.
     */
    method RemoveAccount(id: nat)
      requires Valid()
      modifies this
      ensures Valid()
      ensures users == old(users) - {id}
      ensures tasks == WithoutOwner(old(tasks), id)
      ensures nextId == old(nextId)
    {
      TasksValidWithoutOwner(tasks, nextId, id);
      UsersValidRemove(users, nextId, id);
      tasks := WithoutOwner(tasks, id);
      users := users - {id};
      assert UsersValid(users, nextId) && TasksValid(tasks, nextId);
    }
  }
}
