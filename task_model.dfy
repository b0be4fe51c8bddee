/**
 * The Task schema: a required, trimmed description; `completed`, false unless
 * given; a required owner reference. Assigning to a path goes through the
 * path's cast and setter; saving runs the required-field validators.
 */
module TaskModel {
  import opened Wrappers
  import opened Text
  import opened Json

  datatype Task = Task(id: nat, description: string, completed: bool, owner: nat)

  /** The paths the Task schema declares; every other key of a body is ignored. */
  const TaskPaths: set<string> := {"description", "completed", "owner"}

  /** The value `v` takes once cast to the type of task path `key`, if it casts. */
  predicate TaskCasts(key: string, v: Value) {
    if key == "description" then CastString(v).Some?
    else if key == "completed" then CastBoolean(v).Some?
    else if key == "owner" then CastObjectId(v).Some?
    else true
  }

  /**
   * `task[key] = v`: the cast and setter of that path. A value that does not
   * cast leaves the path as it was (Mongoose records a cast error instead).
   */
  function AssignTask(t: Task, key: string, v: Value): (r: Task)
    ensures r.id == t.id
    ensures key !in TaskPaths || !TaskCasts(key, v) ==> r == t
    ensures key == "description" && TaskCasts(key, v) ==> r == t.(description := Trim(CastString(v).value))
  {
    if key == "description" && CastString(v).Some? then t.(description := Trim(CastString(v).value))
    else if key == "completed" && CastBoolean(v).Some? then t.(completed := CastBoolean(v).value)
    else if key == "owner" && CastObjectId(v).Some? then t.(owner := CastObjectId(v).value)
    else t
  }

  /** Every key of `body` assigned to `t`, in any order (the keys are distinct paths). */
  function PatchTask(t: Task, body: Body): (r: Task)
    ensures r.id == t.id
    ensures body.Keys !! TaskPaths ==> r == t
    ensures "description" in body && CastString(body["description"]).Some? ==> Trimmed(r.description)
  {
    Task(t.id,
         if "description" in body && CastString(body["description"]).Some?
         then Trim(CastString(body["description"]).value) else t.description,
         if "completed" in body && CastBoolean(body["completed"]).Some?
         then CastBoolean(body["completed"]).value else t.completed,
         if "owner" in body && CastObjectId(body["owner"]).Some?
         then CastObjectId(body["owner"]).value else t.owner)
  }

  /** The paths of `body` whose value does not cast. */
  function TaskCastErrors(body: Body): (errs: set<string>)
    ensures errs <= TaskPaths
  {
    set k | k in body && k in TaskPaths && !TaskCasts(k, body[k])
  }

  /** The required validator on the description (an all-blank description is empty once trimmed). */
  function TaskValidationErrors(t: Task): (errs: set<string>)
    ensures errs <= TaskPaths
    ensures "description" in errs <==> t.description == ""
  {
    if t.description == "" then {"description"} else {}
  }

  /** What every stored task satisfies: a non-empty description already trimmed (TrimFixed). */
  predicate StoredTask(t: Task) {
    t.description != "" && Trimmed(t.description)
  }

  /** Assigning one more key is patching with a body that holds that key too. */
  lemma PatchTaskStep(t: Task, m: Body, k: string, v: Value)
    requires k !in m
    ensures AssignTask(PatchTask(t, m), k, v) == PatchTask(t, m[k := v])
    ensures TaskCastErrors(m[k := v]) ==
            TaskCastErrors(m) + (if k in TaskPaths && !TaskCasts(k, v) then {k} else {})
  {
    var m' := m[k := v];
    forall p | p in TaskPaths && p != k ensures (p in m' <==> p in m) && (p in m ==> m'[p] == m[p]) {
    }
    var l, r := AssignTask(PatchTask(t, m), k, v), PatchTask(t, m');
    assert l.description == r.description && l.completed == r.completed && l.owner == r.owner;
    TaskCastErrorsStep(m, k, v);
  }

  /** The cast errors of a body with one more key grow by at most that key. */
  lemma TaskCastErrorsStep(m: Body, k: string, v: Value)
    requires k !in m
    ensures TaskCastErrors(m[k := v]) ==
            TaskCastErrors(m) + (if k in TaskPaths && !TaskCasts(k, v) then {k} else {})
  {
    var m' := m[k := v];
    var extra := if k in TaskPaths && !TaskCasts(k, v) then {k} else {};
    forall x ensures x in TaskCastErrors(m') <==> x in TaskCastErrors(m) + extra {
      if x != k {
        assert x in m' <==> x in m;
      }
    }
  }

  /** A task that passes validation after a patch is again fit to be stored. */
  lemma PatchTaskStored(t: Task, body: Body)
    requires StoredTask(t)
    requires TaskValidationErrors(PatchTask(t, body)) == {}
    ensures StoredTask(PatchTask(t, body))
  {
  }

  /**
   * `new Task(fields)` followed by validation. The description must be present,
   * must cast and must not be empty once trimmed; `completed` defaults to false;
   * the owner must be present and cast.
   */
  function NewTask(id: nat, fields: Body): (r: Result<Task, set<string>>)
    ensures r.Ok? <==>
      && "description" in fields && CastString(fields["description"]).Some?
      && Trim(CastString(fields["description"]).value) != ""
      && ("completed" in fields ==> CastBoolean(fields["completed"]).Some?)
      && "owner" in fields && CastObjectId(fields["owner"]).Some?
    ensures "description" !in fields ==> r.Err? && "description" in r.error
    ensures "owner" !in fields ==> r.Err? && "owner" in r.error
    ensures r.Ok? ==> r.value.id == id
    ensures r.Ok? ==> r.value.description == Trim(CastString(fields["description"]).value)
    ensures r.Ok? ==> r.value.completed == ("completed" in fields && CastBoolean(fields["completed"]).value)
    ensures r.Ok? ==> r.value.owner == CastObjectId(fields["owner"]).value
    ensures r.Ok? ==> StoredTask(r.value)
  {
    TaskCastErrorsEmpty(fields);
    var t := PatchTask(Task(id, "", false, 0), fields);
    var errs := TaskCastErrors(fields) + TaskValidationErrors(t)
                + (if "owner" in fields then {} else {"owner"});
    assert errs == {} <==>
      TaskCastErrors(fields) == {} && TaskValidationErrors(t) == {} && "owner" in fields;
    if errs == {} then Ok(t) else Err(errs)
  }

  /** No cast error exactly when each declared path present in `fields` casts. */
  lemma TaskCastErrorsEmpty(fields: Body)
    ensures TaskCastErrors(fields) == {} <==>
      && ("description" in fields ==> CastString(fields["description"]).Some?)
      && ("completed" in fields ==> CastBoolean(fields["completed"]).Some?)
      && ("owner" in fields ==> CastObjectId(fields["owner"]).Some?)
  {
    if "description" in fields && !TaskCasts("description", fields["description"]) {
      assert "description" in TaskCastErrors(fields);
    }
    if "completed" in fields && !TaskCasts("completed", fields["completed"]) {
      assert "completed" in TaskCastErrors(fields);
    }
    if "owner" in fields && !TaskCasts("owner", fields["owner"]) {
      assert "owner" in TaskCastErrors(fields);
    }
  }
}
