/**
 * The task routes. Each handler runs after `authUser` admitted the request;
 * `s` is the session it attached. Every lookup is keyed on the task id AND
 * the requester, so another owner's task is indistinguishable from a missing
 * one.
 */
module TaskRouter {
  import opened Wrappers
  import opened Text
  import opened Json
  import opened TaskModel
  import opened Http
  import opened Store
  import opened Auth

  const InvalidUpdates: string := "Invalid updates being applied"

  /** The keys a PATCH of a task may name. */
  const TaskUpdatePaths: set<string> := {"description", "completed"}

  // ---------------------------------------------------------------------------
  // Query string: ?completed=...&sortBy=key:dir&skip=...&limit=...
  // ---------------------------------------------------------------------------

  /**
   * `match.completed`: set only when the parameter is a non-empty string,
   * and then true exactly for the string "true".
   */
  function ParseCompleted(q: Option<string>): (r: Option<bool>)
    ensures r.Some? <==> q.Some? && q.value != ""
    ensures r.Some? ==> (r.value <==> q.value == "true")
  {
    if q.Some? && q.value != "" then Some(q.value == "true") else None
  }

  /** `sort[key] = direction`, with 1 ascending and -1 descending. */
  datatype SortSpec = SortSpec(key: string, direction: int)

  /** `sortBy` split at ':': the key before the first ':', -1 iff the next piece is "desc". */
  function ParseSortBy(q: Option<string>): (r: Option<SortSpec>)
    ensures r.Some? <==> q.Some? && q.value != ""
    ensures r.Some? ==> r.value.direction == 1 || r.value.direction == -1
    ensures r.Some? ==> ':' !in r.value.key && r.value.key == Split(q.value, ':')[0]
  {
    if q.Some? && q.value != "" then
      var parts := Split(q.value, ':');
      Some(SortSpec(parts[0], if |parts| > 1 && parts[1] == "desc" then -1 else 1))
    else None
  }

  /** `key:dir` parses as key `key`, descending exactly when `dir` is "desc". */
  lemma ParseSortByKeyDir(key: string, dir: string)
    requires ':' !in key && ':' !in dir
    ensures ParseSortBy(Some(key + ":" + dir)) ==
            Some(SortSpec(key, if dir == "desc" then -1 else 1))
  {
    var parts := [key, dir];
    assert key + ":" + dir == Join(parts, ':');
    SplitJoin(parts, ':');
  }

  /** A bare key sorts ascending. */
  lemma ParseSortByKeyOnly(key: string)
    requires key != "" && ':' !in key
    ensures ParseSortBy(Some(key)) == Some(SortSpec(key, 1))
  {
    IndexOfAbsent(key, ':');
  }

  // ---------------------------------------------------------------------------
  // The populate query: the owner's tasks that match, sorted, then paged
  // ---------------------------------------------------------------------------

  predicate Matches(t: Task, owner: nat, completed: Option<bool>) {
    t.owner == owner && (completed.Some? ==> t.completed == completed.value)
  }

  /**
   * The ids below `n` of the tasks that `owner` owns and that match, in
   * ascending order (the order the model takes for the store's own order).
   */
  function MatchingIds(tasks: map<nat, Task>, owner: nat, completed: Option<bool>, n: nat): (ids: seq<nat>)
    ensures forall i, j :: 0 <= i < j < |ids| ==> ids[i] < ids[j]
    ensures forall k :: k in ids <==> k < n && k in tasks && Matches(tasks[k], owner, completed)
    decreases n
  {
    if n == 0 then []
    else
      var earlier := MatchingIds(tasks, owner, completed, n - 1);
      var k := n - 1;
      if k in tasks && Matches(tasks[k], owner, completed) then
        assert forall j :: j in earlier + [k] <==> j in earlier || j == k;
        forall i | 0 <= i < |earlier| ensures earlier[i] < k {
          assert earlier[i] in earlier;
        }
        earlier + [k]
      else earlier
  }

  /** The key order of one sort key, ascending; keys no task carries leave every pair tied. */
  predicate KeyLeq(a: Task, b: Task, key: string)
    ensures a == b ==> KeyLeq(a, b, key)
    ensures key !in SortKeys ==> KeyLeq(a, b, key)
  {
    StrLeqReflexive(a.description);
    if key == "description" then StrLeq(a.description, b.description)
    else if key == "completed" then (a.completed ==> b.completed)
    else if key == "owner" then a.owner <= b.owner
    else if key == "_id" || key == "createdAt" then a.id <= b.id
    else true
  }

  /** The keys that order tasks; `createdAt` follows the id, which is handed out in creation order. */
  const SortKeys: set<string> := {"description", "completed", "owner", "_id", "createdAt"}

  /** `a` may come before `b` under the sort specification. */
  predicate Ordered(a: Task, b: Task, spec: SortSpec) {
    if spec.direction == -1 then KeyLeq(b, a, spec.key) else KeyLeq(a, b, spec.key)
  }

  lemma OrderedTotal(a: Task, b: Task, spec: SortSpec)
    ensures Ordered(a, b, spec) || Ordered(b, a, spec)
  {
    StrLeqTotal(a.description, b.description);
  }

  lemma OrderedTransitive(a: Task, b: Task, c: Task, spec: SortSpec)
    requires Ordered(a, b, spec) && Ordered(b, c, spec)
    ensures Ordered(a, c, spec)
  {
    if spec.key == "description" {
      if spec.direction == -1 {
        StrLeqTransitive(c.description, b.description, a.description);
      } else {
        StrLeqTransitive(a.description, b.description, c.description);
      }
    }
  }

  /** Each task may precede the next one. */
  predicate SortedBy(s: seq<Task>, spec: SortSpec) {
    forall i :: 0 <= i < |s| - 1 ==> Ordered(s[i], s[i + 1], spec)
  }

  /** In a sorted sequence every task may precede every later one, not only its neighbour. */
  lemma {:induction false} SortedAllPairs(s: seq<Task>, spec: SortSpec, i: nat, j: nat)
    requires SortedBy(s, spec) && i < j < |s|
    ensures Ordered(s[i], s[j], spec)
    decreases j - i
  {
    if j > i + 1 {
      SortedAllPairs(s, spec, i + 1, j);
      OrderedTransitive(s[i], s[i + 1], s[j], spec);
    }
  }

  /** `x` placed before the first element it may precede. */
  function Insert(x: Task, s: seq<Task>, spec: SortSpec): (r: seq<Task>)
    ensures multiset(r) == multiset(s) + multiset{x}
    ensures |r| == |s| + 1
    ensures r[0] == x || (s != [] && r[0] == s[0])
    ensures SortedBy(s, spec) ==> SortedBy(r, spec)
    decreases |s|
  {
    if s == [] || Ordered(x, s[0], spec) then SortedCons(x, s, spec); [x] + s
    else
      OrderedTotal(x, s[0], spec);
      var rest := Insert(x, s[1..], spec);
      assert s == [s[0]] + s[1..];
      SortedTail(s, spec);
      SortedCons(s[0], rest, spec);
      [s[0]] + rest
  }

  /** Dropping the first task keeps a sequence sorted. */
  lemma SortedTail(s: seq<Task>, spec: SortSpec)
    ensures s != [] && SortedBy(s, spec) ==> SortedBy(s[1..], spec)
  {
    if s != [] && SortedBy(s, spec) {
      forall i | 0 <= i < |s| - 2 ensures Ordered(s[1..][i], s[1..][i + 1], spec) {
        assert s[1..][i] == s[i + 1] && s[1..][i + 1] == s[i + 2];
      }
    }
  }

  /** A task ordered before the head of a sorted sequence can go in front of it. */
  lemma SortedCons(a: Task, r: seq<Task>, spec: SortSpec)
    ensures SortedBy(r, spec) && (r != [] ==> Ordered(a, r[0], spec)) ==> SortedBy([a] + r, spec)
  {
    if SortedBy(r, spec) && (r != [] ==> Ordered(a, r[0], spec)) {
      forall i | 0 <= i < |r| ensures Ordered(([a] + r)[i], ([a] + r)[i + 1], spec) {
        if i > 0 { assert ([a] + r)[i] == r[i - 1] && ([a] + r)[i + 1] == r[i]; }
      }
    }
  }

  /** The tasks in the order the sort specification asks for. */
  function SortTasks(s: seq<Task>, spec: SortSpec): (r: seq<Task>)
    ensures multiset(r) == multiset(s)
    ensures SortedBy(r, spec)
    decreases |s|
  {
    if s == [] then []
    else
      assert s == [s[0]] + s[1..];
      Insert(s[0], SortTasks(s[1..], spec), spec)
  }

  function Skipped(len: nat, skip: Option<nat>): (lo: nat)
    ensures lo <= len
  {
    if skip.Some? && skip.value < len then skip.value else if skip.Some? then len else 0
  }

  /**
   * Skip, then limit: the slice that starts after the first `skip` elements
   * and holds at most `limit` of them (a limit of 0 sets no bound).
   */
  function Page<T>(s: seq<T>, skip: Option<nat>, limit: Option<nat>): (r: seq<T>)
    ensures var lo := Skipped(|s|, skip); lo + |r| <= |s| && r == s[lo..lo + |r|]
    ensures limit.Some? && limit.value > 0 ==> |r| <= limit.value
    ensures (limit.None? || limit.value == 0 || Skipped(|s|, skip) + limit.value >= |s|)
            ==> |r| == |s| - Skipped(|s|, skip)
    ensures limit.Some? && limit.value > 0 && Skipped(|s|, skip) + limit.value < |s| ==> |r| == limit.value
  {
    var rest := s[Skipped(|s|, skip)..];
    if limit.Some? && limit.value > 0 && limit.value < |rest| then rest[..limit.value] else rest
  }

  /** Two consecutive pages of size `l` are the page of size `2 l` at the same offset. */
  lemma PagesConsecutive<T>(s: seq<T>, k: nat, l: nat)
    requires l > 0
    ensures Page(s, Some(k), Some(l)) + Page(s, Some(k + l), Some(l)) == Page(s, Some(k), Some(2 * l))
  {
    var lo1 := Skipped(|s|, Some(k));
    var lo2 := Skipped(|s|, Some(k + l));
    var p1, p2 := Page(s, Some(k), Some(l)), Page(s, Some(k + l), Some(l));
    assert lo1 + |p1| == lo2;
    assert p1 + p2 == s[lo1..lo2 + |p2|];
  }

  /** What `GET /tasks` sends: the requester's matching tasks, sorted, then paged. */
  function Listing(tasks: map<nat, Task>, bound: nat, owner: nat, completed: Option<bool>,
                   sort: Option<SortSpec>, skip: Option<nat>, limit: Option<nat>): (r: seq<Task>)
    ensures limit.Some? && limit.value > 0 ==> |r| <= limit.value
  {
    var ids := MatchingIds(tasks, owner, completed, bound);
    var found := seq(|ids|, i requires 0 <= i < |ids| => tasks[ids[i]]);
    var ordered := if sort.Some? then SortTasks(found, sort.value) else found;
    Page(ordered, skip, limit)
  }

  /** Every listed task is a stored task of the requester that matches the filter. */
  lemma ListingOwned(tasks: map<nat, Task>, bound: nat, owner: nat, completed: Option<bool>,
                     sort: Option<SortSpec>, skip: Option<nat>, limit: Option<nat>)
    requires TasksValid(tasks, bound)
    ensures forall t :: t in Listing(tasks, bound, owner, completed, sort, skip, limit) ==>
      t.id in tasks && tasks[t.id] == t && Matches(t, owner, completed)
  {
    var ids := MatchingIds(tasks, owner, completed, bound);
    var found := seq(|ids|, i requires 0 <= i < |ids| => tasks[ids[i]]);
    var ordered := if sort.Some? then SortTasks(found, sort.value) else found;
    var r := Page(ordered, skip, limit);
    assert r == Listing(tasks, bound, owner, completed, sort, skip, limit);
    forall t | t in r ensures t.id in tasks && tasks[t.id] == t && Matches(t, owner, completed) {
      assert t in ordered;
      assert multiset(ordered) == multiset(found);
      assert t in multiset(found);
      var i :| 0 <= i < |found| && found[i] == t;
      assert ids[i] in ids;
    }
  }

  /**
   * Without paging every stored task of the requester that matches is listed,
   * once, and in the requested order.
   */
  lemma ListingComplete(tasks: map<nat, Task>, bound: nat, owner: nat, completed: Option<bool>,
                        sort: Option<SortSpec>)
    requires TasksValid(tasks, bound)
    ensures var r := Listing(tasks, bound, owner, completed, sort, None, None);
      && (forall k :: k in tasks && Matches(tasks[k], owner, completed) ==> tasks[k] in r)
      && |r| == |MatchingIds(tasks, owner, completed, bound)|
      && (sort.Some? ==> SortedBy(r, sort.value))
      && (sort.Some? ==> forall i, j :: 0 <= i < j < |r| ==> Ordered(r[i], r[j], sort.value))
  {
    var ids := MatchingIds(tasks, owner, completed, bound);
    var found := seq(|ids|, i requires 0 <= i < |ids| => tasks[ids[i]]);
    var ordered := if sort.Some? then SortTasks(found, sort.value) else found;
    assert Listing(tasks, bound, owner, completed, sort, None, None) == ordered;
    forall k | k in tasks && Matches(tasks[k], owner, completed) ensures tasks[k] in ordered {
      assert k in ids;
      var i :| 0 <= i < |ids| && ids[i] == k;
      assert found[i] == tasks[k];
      assert tasks[k] in multiset(found);
    }
    assert |multiset(ordered)| == |multiset(found)|;
    if sort.Some? {
      forall i, j | 0 <= i < j < |ordered| ensures Ordered(ordered[i], ordered[j], sort.value) {
        SortedAllPairs(ordered, sort.value, i, j);
      }
    }
  }

  /** Without `sortBy` the tasks come in ascending id order. */
  lemma ListingUnsortedAscending(tasks: map<nat, Task>, bound: nat, owner: nat, completed: Option<bool>)
    requires TasksValid(tasks, bound)
    ensures var r := Listing(tasks, bound, owner, completed, None, None, None);
      forall i, j :: 0 <= i < j < |r| ==> r[i].id < r[j].id
  {
  }

  // ---------------------------------------------------------------------------
  // Lookup keyed on (id, owner)
  // ---------------------------------------------------------------------------

  /** `Task.findOne({ _id, owner })`. */
  function FindOwned(tasks: map<nat, Task>, id: nat, owner: nat): (r: Option<Task>)
    ensures r.Some? <==> id in tasks && tasks[id].owner == owner
    ensures r.Some? ==> r.value == tasks[id]
  {
    if id in tasks && tasks[id].owner == owner then Some(tasks[id]) else None
  }

  /** Another owner's task is found exactly as often as a missing one: never. */
  lemma ForeignTaskHidden(tasks: map<nat, Task>, id: nat, owner: nat, other: nat)
    requires id in tasks && tasks[id].owner == other && other != owner
    ensures FindOwned(tasks, id, owner) == FindOwned(tasks - {id}, id, owner) == None
  {
  }

  /** The `:id` route parameter cast to an ObjectId. */
  function CastIdParam(param: string): (r: Option<nat>)
    ensures r.Some? <==> param != [] && AllDigits(param)
  {
    ParseNat(param)
  }

  // ---------------------------------------------------------------------------
  // The update loop
  // ---------------------------------------------------------------------------

  /**
   * `updates.forEach(update => task[update] = req.body[update])`, in whatever
   * order the keys come: the result is the task patched with the whole body,
   * and the cast failures met on the way.
   */
  method ApplyTaskUpdates(t: Task, body: Body) returns (updated: Task, castErrors: set<string>)
    ensures updated == PatchTask(t, body)
    ensures castErrors == TaskCastErrors(body)
  {
    updated, castErrors := t, {};
    var todo := body.Keys;
    ghost var done: Body := map[];
    while todo != {}
      invariant todo <= body.Keys && done.Keys == body.Keys - todo
      invariant forall k :: k in done ==> done[k] == body[k]
      invariant updated == PatchTask(t, done)
      invariant castErrors == TaskCastErrors(done)
      decreases |todo|
    {
      var k :| k in todo;
      TakeKey(body, done, todo, k);
      PatchTaskStep(t, done, k, body[k]);
      updated := AssignTask(updated, k, body[k]);
      if k in TaskPaths && !TaskCasts(k, body[k]) {
        castErrors := castErrors + {k};
      }
      todo := todo - {k};
      done := done[k := body[k]];
    }
    assert done == body;
  }

  /**
   * An update through the allow-list changes only the named fields: the id
   * and the owner stay, an absent field stays, a present field that casts takes
   * its new value.
   */
  lemma PatchTaskFrame(t: Task, body: Body)
    requires body.Keys <= TaskUpdatePaths
    ensures PatchTask(t, body).id == t.id && PatchTask(t, body).owner == t.owner
    ensures "description" !in body ==> PatchTask(t, body).description == t.description
    ensures "completed" !in body ==> PatchTask(t, body).completed == t.completed
    ensures "description" in body && CastString(body["description"]).Some? ==>
      PatchTask(t, body).description == Trim(CastString(body["description"]).value)
    ensures "completed" in body && CastBoolean(body["completed"]).Some? ==>
      PatchTask(t, body).completed == CastBoolean(body["completed"]).value
  {
    assert "owner" !in body;
  }

  // ---------------------------------------------------------------------------
  // Handlers
  // ---------------------------------------------------------------------------

  /**
   * `POST /tasks`: `new Task({ ...req.body, owner: req.user._id })`, saved.
   * The owner written after the spread wins over any owner in the body.
   */
  method CreateTask(db: Db, s: Session, body: Body) returns (reply: Reply)
    requires db.Valid() && Admitted(db.users, s)
    modifies db
    ensures db.Valid()
    ensures var r := NewTask(old(db.nextId), body["owner" := ObjectId(s.user.id)]);
      && (r.Ok? ==> reply == Reply(StatusCreated, TaskDoc(r.value))
                    && db.tasks == old(db.tasks)[r.value.id := r.value] && db.nextId == old(db.nextId) + 1)
      && (r.Err? ==> reply == Reply(StatusBadRequest, ValidationFailed(r.error))
                     && db.tasks == old(db.tasks) && db.nextId == old(db.nextId))
    ensures reply.status == StatusCreated ==> reply.payload.task.owner == s.user.id
    ensures db.users == old(db.users)
  {
    var fields := body["owner" := ObjectId(s.user.id)];
    match NewTask(db.nextId, fields)
    case Ok(t) =>
      CreatedOwnerIsRequester(db.nextId, body, s.user.id);
      db.InsertTask(t);
      return Reply(StatusCreated, TaskDoc(t));
    case Err(errs) =>
      return Reply(StatusBadRequest, ValidationFailed(errs));
  }

  /** Whatever owner a body names, the created task's owner is the requester. */
  lemma CreatedOwnerIsRequester(id: nat, body: Body, requester: nat)
    requires NewTask(id, body["owner" := ObjectId(requester)]).Ok?
    ensures NewTask(id, body["owner" := ObjectId(requester)]).value.owner == requester
  {
  }

  /** A create fails only on the description or `completed`, never on the owner. */
  lemma CreateNeverMissesOwner(id: nat, body: Body, requester: nat)
    ensures var r := NewTask(id, body["owner" := ObjectId(requester)]);
      r.Err? ==> "owner" !in r.error
  {
    var fields := body["owner" := ObjectId(requester)];
    assert TaskCasts("owner", fields["owner"]);
    assert "owner" !in TaskCastErrors(fields);
  }

  /** `GET /tasks`: the listing, always 200 (the populated array always exists). */
  method ListTasks(db: Db, s: Session, completed: Option<string>, sortBy: Option<string>,
                   skip: Option<nat>, limit: Option<nat>) returns (reply: Reply)
    requires db.Valid()
    ensures reply.status == StatusOk && reply.payload.TaskList?
    ensures forall t :: t in reply.payload.tasks ==>
      t.id in db.tasks && db.tasks[t.id] == t && Matches(t, s.user.id, ParseCompleted(completed))
    ensures limit.Some? && limit.value > 0 ==> |reply.payload.tasks| <= limit.value
    ensures reply.payload.tasks ==
      Listing(db.tasks, db.nextId, s.user.id, ParseCompleted(completed), ParseSortBy(sortBy), skip, limit)
  {
    var tasks := Listing(db.tasks, db.nextId, s.user.id, ParseCompleted(completed), ParseSortBy(sortBy), skip, limit);
    ListingOwned(db.tasks, db.nextId, s.user.id, ParseCompleted(completed), ParseSortBy(sortBy), skip, limit);
    return Reply(StatusOk, TaskList(tasks));
  }

  /**
   * `GET /task/:id`: the requester's task with that id, else 404. An id that
   * does not cast makes the query throw: 500.
   */
  method GetTask(db: Db, s: Session, idParam: string) returns (reply: Reply)
    ensures CastIdParam(idParam).None? ==> reply == Reply(StatusServerError, Empty)
    ensures CastIdParam(idParam).Some? ==>
      var id := CastIdParam(idParam).value;
      && (id in db.tasks && db.tasks[id].owner == s.user.id ==> reply == Reply(StatusOk, TaskDoc(db.tasks[id])))
      && (!(id in db.tasks && db.tasks[id].owner == s.user.id) ==> reply == Reply(StatusNotFound, Empty))
  {
    match CastIdParam(idParam)
    case None => return Reply(StatusServerError, Empty);
    case Some(id) =>
      match FindOwned(db.tasks, id, s.user.id)
      case None => return Reply(StatusNotFound, Empty);
      case Some(t) => return Reply(StatusOk, TaskDoc(t));
  }

  /**
   * `PATCH /task/:id`. The gate comes first: an empty body or any key outside
   * {description, completed} is refused before the lookup. Then the lookup
   * keyed on the requester, the assignments, and the save, which validates.
   */
  method UpdateTask(db: Db, s: Session, idParam: string, body: Body) returns (reply: Reply)
    requires db.Valid()
    modifies db
    ensures db.Valid()
    ensures db.users == old(db.users) && db.nextId == old(db.nextId)
    ensures !UpdatesAllowed(body.Keys, TaskUpdatePaths) ==>
      reply == Reply(StatusBadRequest, ErrorMessage(InvalidUpdates)) && db.tasks == old(db.tasks)
    ensures UpdatesAllowed(body.Keys, TaskUpdatePaths) && CastIdParam(idParam).None? ==>
      reply == Reply(StatusBadRequest, ThrownError) && db.tasks == old(db.tasks)
    ensures UpdatesAllowed(body.Keys, TaskUpdatePaths) && CastIdParam(idParam).Some? ==>
      var id := CastIdParam(idParam).value;
      if FindOwned(old(db.tasks), id, s.user.id).None? then
        reply == Reply(StatusNotFound, Empty) && db.tasks == old(db.tasks)
      else
        var patched := PatchTask(old(db.tasks)[id], body);
        var errs := TaskCastErrors(body) + TaskValidationErrors(patched);
        if errs == {} then reply == Reply(StatusOk, TaskDoc(patched)) && db.tasks == old(db.tasks)[id := patched]
        else reply == Reply(StatusBadRequest, ValidationFailed(errs)) && db.tasks == old(db.tasks)
  {
    if !UpdatesAllowed(body.Keys, TaskUpdatePaths) {
      return Reply(StatusBadRequest, ErrorMessage(InvalidUpdates));
    }
    var parsed := CastIdParam(idParam);
    if parsed.None? {
      return Reply(StatusBadRequest, ThrownError);
    }
    var id := parsed.value;
    var found := FindOwned(db.tasks, id, s.user.id);
    if found.None? {
      return Reply(StatusNotFound, Empty);
    }
    var patched, castErrors := ApplyTaskUpdates(found.value, body);
    var errs := castErrors + TaskValidationErrors(patched);
    if errs != {} {
      return Reply(StatusBadRequest, ValidationFailed(errs));
    }
    PatchTaskStored(found.value, body);
    TasksValidUpdate(db.tasks, db.nextId, patched);
    db.tasks := db.tasks[id := patched];
    assert UsersValid(db.users, db.nextId) && TasksValid(db.tasks, db.nextId);
    return Reply(StatusOk, TaskDoc(patched));
  }

  /**
   * `DELETE /task/:id`: `findOneAndDelete({ _id, owner })`. Exactly the
   * matched task is removed; another owner's task is left and reported 404.
   */
  method DeleteTask(db: Db, s: Session, idParam: string) returns (reply: Reply)
    requires db.Valid()
    modifies db
    ensures db.Valid()
    ensures db.users == old(db.users) && db.nextId == old(db.nextId)
    ensures CastIdParam(idParam).None? ==> reply == Reply(StatusBadRequest, Empty) && db.tasks == old(db.tasks)
    ensures CastIdParam(idParam).Some? ==>
      var id := CastIdParam(idParam).value;
      match FindOwned(old(db.tasks), id, s.user.id)
      case None => reply == Reply(StatusNotFound, Empty) && db.tasks == old(db.tasks)
      case Some(t) => reply == Reply(StatusOk, TaskDoc(t)) && db.tasks == old(db.tasks) - {id}
  {
    match CastIdParam(idParam)
    case None => return Reply(StatusBadRequest, Empty);
    case Some(id) =>
      match FindOwned(db.tasks, id, s.user.id)
      case None => return Reply(StatusNotFound, Empty);
      case Some(t) =>
        TasksValidRemove(db.tasks, db.nextId, id);
        db.tasks := db.tasks - {id};
        assert UsersValid(db.users, db.nextId) && TasksValid(db.tasks, db.nextId);
        return Reply(StatusOk, TaskDoc(t));
  }
}
