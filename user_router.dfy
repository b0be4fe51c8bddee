/**
 * The account routes: register, login, logout of one session and of all of
 * them, the profile and its update, the avatar, and account deletion. The
 * handlers behind `authUser` take the session it attached.
 */
module UserRouter {
  import opened Wrappers
  import opened Text
  import opened Json
  import opened Crypto
  import opened UserModel
  import opened Http
  import opened Store
  import opened Auth

  const InvalidUpdates: string := "Invalid updates being applied"
  const LoggedOutSession: string := "Logged out successfully!"
  const LoggedOutEverywhere: string := "Logged out successfully"
  const OnlyImagesUpload: string := "Only images upload"
  const OnlyUploadImages: string := "Only upload images"
  const UploadedSuccessfully: string := "Uploaded successfully."
  const NoAvatarFound: string := "No avatar found"
  const DeletedSuccessfully: string := "Deleted successfully."

  // ---------------------------------------------------------------------------
  // POST /users
  // ---------------------------------------------------------------------------

  /**
   * `new User(req.body)`, saved, then a token issued. The document takes the
   * next id; its password is new, so the hook hashes it. A failing save
   * writes nothing and answers 400 with the failing paths.
   */
  method Register(db: Db, body: Body, now: nat) returns (reply: Reply)
    requires db.Valid()
    modifies db
    ensures db.Valid()
    ensures db.tasks == old(db.tasks)
    ensures var id := old(db.nextId);
      var r := Save(PatchProfile(Blank(id), body), true, ProfileCastErrors(body));
      && (r.Err? ==> reply == Reply(StatusBadRequest, ValidationFailed(r.error))
                     && db.users == old(db.users) && db.nextId == old(db.nextId))
      && (r.Ok? ==>
            var account := r.value.(tokens := [Sign(id, now)]);
            && reply == Reply(StatusCreated, ProfileWithToken(ToJson(account), Sign(id, now)))
            && db.users == old(db.users)[id := account] && db.nextId == old(db.nextId) + 1)
  {
    var id := db.nextId;
    var doc := PatchProfile(Blank(id), body);
    var r := Save(doc, true, ProfileCastErrors(body));
    if r.Err? {
      return Reply(StatusBadRequest, ValidationFailed(r.error));
    }
    PatchProfileNormalised(Blank(id), body);
    SaveStored(doc, true, ProfileCastErrors(body));
    reply := StoreNewAccount(db, r.value, now);
  }

  /** The second half of a registration: the saved account is stored, then signed in. */
  method StoreNewAccount(db: Db, saved: Account, now: nat) returns (reply: Reply)
    requires db.Valid() && saved.id == db.nextId && saved.tokens == [] && StoredAccount(saved)
    modifies db
    ensures db.Valid()
    ensures db.tasks == old(db.tasks) && db.nextId == old(db.nextId) + 1
    ensures var account := saved.(tokens := [Sign(saved.id, now)]);
      && reply == Reply(StatusCreated, ProfileWithToken(ToJson(account), Sign(saved.id, now)))
      && db.users == old(db.users)[saved.id := account]
  {
    ghost var before: map<nat, Account> := db.users;
    db.InsertAccount(saved);
    var token := db.GetAuthToken(saved.id, now);
    var account := saved.(tokens := [token]);
    assert saved.tokens + [token] == [token];
    OverwriteTwice(before, saved.id, saved, account);
    reply := Reply(StatusCreated, ProfileWithToken(ToJson(account), token));
  }

  lemma OverwriteTwice(m: map<nat, Account>, k: nat, a: Account, b: Account)
    ensures m[k := a][k := b] == m[k := b]
  {
  }

  /** A registered account's stored password is the digest of the (trimmed) password sent. */
  lemma RegisteredPasswordHashed(id: nat, body: Body)
    requires Save(PatchProfile(Blank(id), body), true, ProfileCastErrors(body)).Ok?
    ensures "password" in body && CastString(body["password"]).Some?
    ensures Save(PatchProfile(Blank(id), body), true, ProfileCastErrors(body)).value.password ==
            Hash(Trim(CastString(body["password"]).value))
  {
    assert PasswordOk(PatchProfile(Blank(id), body).password);
  }

  /** The name is required: a registration that sends none fails on the name path. */
  lemma RegisterNeedsName(id: nat, body: Body)
    requires "name" !in body
    ensures var r := Save(PatchProfile(Blank(id), body), true, ProfileCastErrors(body));
      r.Err? && "name" in r.error
  {
    assert "name" in AccountErrors(PatchProfile(Blank(id), body));
  }

  /** Registration with the password the account is then logged in with matches. */
  lemma RegisterThenLogin(id: nat, body: Body, raw: string)
    requires "password" in body && body["password"] == Str(raw)
    requires Save(PatchProfile(Blank(id), body), true, ProfileCastErrors(body)).Ok?
    ensures Compare(Trim(raw), Save(PatchProfile(Blank(id), body), true, ProfileCastErrors(body)).value.password)
  {
    CompareHash(Trim(raw), Trim(raw));
  }

  // ---------------------------------------------------------------------------
  // POST /users/login
  // ---------------------------------------------------------------------------

  /** The credentials a login presents match account `id`. */
  ghost predicate CredentialsMatch(users: map<nat, Account>, id: nat, email: string, password: string) {
    id in users && users[id].email == NormaliseEmail(email) && Compare(password, users[id].password)
  }

  /** Some account has the e-mail, and the password matches every account that has it. */
  ghost predicate CredentialsAccepted(users: map<nat, Account>, email: string, password: string) {
    && (exists id :: id in users && users[id].email == NormaliseEmail(email))
    && (forall id :: id in users && users[id].email == NormaliseEmail(email) ==> Compare(password, users[id].password))
  }

  /**
   * `findByCredentials(req.body.email, req.body.password)` and then a new
   * token. The e-mail goes through the String cast of the query; the
   * password must be a string for bcrypt. Every failure is the same 400 and
   * leaves the store as it was; no token is issued before the check passes.
   */
  method Login(db: Db, body: Body, now: nat) returns (reply: Reply)
    requires db.Valid()
    modifies db
    ensures db.Valid()
    ensures db.tasks == old(db.tasks) && db.nextId == old(db.nextId)
    ensures reply.status == StatusOk || reply == Reply(StatusBadRequest, ThrownError)
    ensures reply.status != StatusOk ==> db.users == old(db.users)
    ensures reply.status == StatusOk ==>
      "email" in body && CastString(body["email"]).Some? && "password" in body && body["password"].Str? &&
      exists id :: CredentialsMatch(old(db.users), id, CastString(body["email"]).value, body["password"].s)
        && db.users == old(db.users)[id := old(db.users)[id].(tokens := old(db.users)[id].tokens + [Sign(id, now)])]
        && reply.payload == ProfileWithToken(ToJson(db.users[id]), Sign(id, now))
    ensures ("email" in body && CastString(body["email"]).Some? && "password" in body && body["password"].Str? &&
             forall id :: !CredentialsMatch(old(db.users), id, CastString(body["email"]).value, body["password"].s))
            ==> reply == Reply(StatusBadRequest, ThrownError)
    ensures ("email" in body && CastString(body["email"]).Some? && "password" in body && body["password"].Str? &&
             CredentialsAccepted(old(db.users), CastString(body["email"]).value, body["password"].s))
            ==> reply.status == StatusOk
  {
    if !("email" in body && CastString(body["email"]).Some? && "password" in body && body["password"].Str?) {
      return Reply(StatusBadRequest, ThrownError);
    }
    var email, password := CastString(body["email"]).value, body["password"].s;
    var found := db.FindByCredentials(email, password);
    match found
    case Err(_) =>
      return Reply(StatusBadRequest, ThrownError);
    case Ok(id) =>
      ghost var before := db.users;
      assert CredentialsMatch(before, id, email, password);
      var token := db.GetAuthToken(id, now);
      assert db.users == before[id := before[id].(tokens := before[id].tokens + [Sign(id, now)])];
      return Reply(StatusOk, ProfileWithToken(ToJson(db.users[id]), token));
  }

  // ---------------------------------------------------------------------------
  // POST /users/logout and /users/logoutAll
  // ---------------------------------------------------------------------------

  /** `tokens.filter(token => token !== t)`. */
  function Without(tokens: seq<string>, t: string): (r: seq<string>)
    ensures t !in r
    ensures forall u :: u != t ==> multiset(r)[u] == multiset(tokens)[u]
    decreases |tokens|
  {
    if tokens == [] then []
    else
      assert tokens == [tokens[0]] + tokens[1..];
      (if tokens[0] == t then [] else [tokens[0]]) + Without(tokens[1..], t)
  }

  /** The filter keeps order: it works piece by piece on a concatenation. */
  lemma {:induction false} WithoutAppend(a: seq<string>, b: seq<string>, t: string)
    ensures Without(a + b, t) == Without(a, t) + Without(b, t)
    decreases |a|
  {
    if a == [] {
      assert a + b == b;
    } else {
      var head := if a[0] == t then [] else [a[0]];
      assert a + b == [a[0]] + (a[1..] + b);
      assert Without(a + b, t) == head + Without(a[1..] + b, t);
      WithoutAppend(a[1..], b, t);
      assert head + (Without(a[1..], t) + Without(b, t)) == (head + Without(a[1..], t)) + Without(b, t);
    }
  }

  /** Tokens other than the one presented stay, in the order they were issued. */
  lemma WithoutOthers(tokens: seq<string>, t: string)
    requires t !in tokens
    ensures Without(tokens, t) == tokens
  {
  }

  /**
   * `req.user.tokens = req.user.tokens.filter(...)`, then saved: the session's
   * token is gone for good, every other token stays.
   */
  method Logout(db: Db, s: Session) returns (reply: Reply)
    requires db.Valid() && Admitted(db.users, s)
    modifies db
    ensures db.Valid()
    ensures reply == Reply(StatusOk, SuccessMessage(LoggedOutSession))
    ensures db.users == old(db.users)[s.user.id := s.user.(tokens := Without(s.user.tokens, s.token))]
    ensures db.tasks == old(db.tasks) && db.nextId == old(db.nextId)
    ensures forall h :: ExtractToken(h) == s.token ==> Authenticate(db.users, Some(h)) == Err(Rejection)
  {
    var a := s.user.(tokens := Without(s.user.tokens, s.token));
    SaveUnmodified(a);
    db.WriteAccount(a);
    return Reply(StatusOk, SuccessMessage(LoggedOutSession));
  }

  /** `req.user.tokens = []`, then saved: no token of the account opens a session any more. */
  method LogoutAll(db: Db, s: Session) returns (reply: Reply)
    requires db.Valid() && Admitted(db.users, s)
    modifies db
    ensures db.Valid()
    ensures reply == Reply(StatusOk, SuccessMessage(LoggedOutEverywhere))
    ensures db.users == old(db.users)[s.user.id := s.user.(tokens := [])]
    ensures db.tasks == old(db.tasks) && db.nextId == old(db.nextId)
    ensures forall h :: Verify(ExtractToken(h)) == Some(s.user.id) ==> Authenticate(db.users, Some(h)) == Err(Rejection)
  {
    var a := s.user.(tokens := []);
    SaveUnmodified(a);
    db.WriteAccount(a);
    return Reply(StatusOk, SuccessMessage(LoggedOutEverywhere));
  }

  // ---------------------------------------------------------------------------
  // GET and PATCH /users/me
  // ---------------------------------------------------------------------------

  /** `res.send(req.user)`: the profile through `toJSON`, secrets left out. */
  function Me(s: Session): (reply: Reply)
    ensures reply.status == StatusOk && reply.payload.Profile?
    ensures reply.payload.user.Keys !! HiddenPaths
    ensures reply.payload.user.Keys == ToObject(s.user).Keys - HiddenPaths
    ensures forall k :: k in reply.payload.user ==> k in ToObject(s.user) && reply.payload.user[k] == ToObject(s.user)[k]
  {
    Reply(StatusOk, Profile(ToJson(s.user)))
  }

  /**
   * `updates.forEach(update => req.user[update] = req.body[update])`, in
   * whatever order the keys come.
   */
  method ApplyProfileUpdates(a: Account, body: Body) returns (updated: Account, castErrors: set<string>)
    ensures updated == PatchProfile(a, body)
    ensures castErrors == ProfileCastErrors(body)
  {
    updated, castErrors := a, {};
    var todo := body.Keys;
    ghost var done: Body := map[];
    while todo != {}
      invariant todo <= body.Keys && done.Keys == body.Keys - todo
      invariant forall k :: k in done ==> done[k] == body[k]
      invariant updated == PatchProfile(a, done)
      invariant castErrors == ProfileCastErrors(done)
      decreases |todo|
    {
      var k :| k in todo;
      TakeKey(body, done, todo, k);
      PatchProfileStep(a, done, k, body[k]);
      updated := AssignProfile(updated, k, body[k]);
      if k in ProfilePaths && !ProfileCasts(k, body[k]) {
        castErrors := castErrors + {k};
      }
      todo := todo - {k};
      done := done[k := body[k]];
    }
    assert done == body;
  }

  /**
   * `PATCH /users/me`. An empty body or a key outside {name, age, email,
   * password} is refused before anything is assigned. Otherwise the keys are
   * assigned and saved: the password is re-hashed only when its value changed.
   */
  method UpdateProfile(db: Db, s: Session, body: Body) returns (reply: Reply)
    requires db.Valid() && Admitted(db.users, s)
    modifies db
    ensures db.Valid()
    ensures db.tasks == old(db.tasks) && db.nextId == old(db.nextId)
    ensures !UpdatesAllowed(body.Keys, ProfilePaths) ==>
      reply == Reply(StatusBadRequest, ErrorMessage(InvalidUpdates)) && db.users == old(db.users)
    ensures UpdatesAllowed(body.Keys, ProfilePaths) ==>
      var doc := PatchProfile(s.user, body);
      var r := Save(doc, doc.password != s.user.password, ProfileCastErrors(body));
      && (r.Err? ==> reply == Reply(StatusBadRequest, ValidationFailed(r.error)) && db.users == old(db.users))
      && (r.Ok? ==> reply == Reply(StatusOk, Profile(ToJson(r.value)))
                    && db.users == old(db.users)[s.user.id := r.value])
  {
    if !UpdatesAllowed(body.Keys, ProfilePaths) {
      return Reply(StatusBadRequest, ErrorMessage(InvalidUpdates));
    }
    var doc, castErrors := ApplyProfileUpdates(s.user, body);
    var modified := doc.password != s.user.password;
    var r := Save(doc, modified, castErrors);
    if r.Err? {
      return Reply(StatusBadRequest, ValidationFailed(r.error));
    }
    PatchProfileNormalised(s.user, body);
    SaveStored(doc, modified, castErrors);
    db.WriteAccount(r.value);
    return Reply(StatusOk, Profile(ToJson(r.value)));
  }

  /**
   * An update that does not name the password keeps the stored digest as it
   * is; one that sets a new password stores the digest of that password.
   */
  lemma UpdateRehashRule(a: Account, body: Body)
    requires Save(PatchProfile(a, body), PatchProfile(a, body).password != a.password, ProfileCastErrors(body)).Ok?
    ensures var saved := Save(PatchProfile(a, body), PatchProfile(a, body).password != a.password,
                              ProfileCastErrors(body)).value;
      && ("password" !in body ==> saved.password == a.password)
      && ("password" in body && PatchProfile(a, body).password != a.password ==>
            saved.password == Hash(PatchProfile(a, body).password))
  {
  }

  // ---------------------------------------------------------------------------
  // Avatar
  // ---------------------------------------------------------------------------

  /** multer's `fileFilter`: the name must end in ".jpg", ".jpeg" or ".png", exactly in that case. */
  predicate FileFilter(originalName: string)
    ensures FileFilter(originalName) ==>
      |originalName| >= 4 && originalName[|originalName| - 4..] in {".jpg", "jpeg", ".png"}
  {
    var n := |originalName|;
    assert EndsWith(originalName, ".jpeg") ==> originalName[n - 4..] == originalName[n - 5..][1..];
    EndsWith(originalName, ".jpg") || EndsWith(originalName, ".jpeg") || EndsWith(originalName, ".png")
  }

  /** Every name with one of the three extensions passes. */
  lemma FileFilterAccepts(base: string)
    ensures FileFilter(base + ".jpg") && FileFilter(base + ".jpeg") && FileFilter(base + ".png")
  {
    assert (base + ".jpg")[|base|..] == ".jpg";
    assert (base + ".jpeg")[|base|..] == ".jpeg";
    assert (base + ".png")[|base|..] == ".png";
  }

  /**
   * All three extensions end in a lower-case 'g': a name that does not, such
   * as "photo.PNG" or "image.png.exe", is refused.
   */
  lemma FileFilterNeedsFinalG(name: string)
    ensures FileFilter(name) ==> name != [] && name[|name| - 1] == 'g'
  {
    if EndsWith(name, ".jpg") { EndsWithLast(name, ".jpg"); }
    if EndsWith(name, ".jpeg") { EndsWithLast(name, ".jpeg"); }
    if EndsWith(name, ".png") { EndsWithLast(name, ".png"); }
  }

  /** The `avatar` form field: the name the client gave and the image as sharp normalises it. */
  datatype Upload = Upload(originalName: string, png: seq<bv8>)

  /**
   * `POST /users/me/avatar`. A file the filter refuses is answered by the
   * error handler; no file at all by the handler itself; otherwise the
   * normalised image becomes the avatar.
   */
  method UploadAvatar(db: Db, s: Session, file: Option<Upload>) returns (reply: Reply)
    requires db.Valid() && Admitted(db.users, s)
    modifies db
    ensures db.Valid()
    ensures db.tasks == old(db.tasks) && db.nextId == old(db.nextId)
    ensures file.Some? && !FileFilter(file.value.originalName) ==>
      reply == Reply(StatusBadRequest, ErrorMessage(OnlyImagesUpload)) && db.users == old(db.users)
    ensures file.None? ==>
      reply == Reply(StatusBadRequest, ErrorMessage(OnlyUploadImages)) && db.users == old(db.users)
    ensures file.Some? && FileFilter(file.value.originalName) ==>
      reply == Reply(StatusOk, SuccessMessage(UploadedSuccessfully))
      && db.users == old(db.users)[s.user.id := s.user.(avatar := Some(file.value.png))]
  {
    if file.Some? && !FileFilter(file.value.originalName) {
      return Reply(StatusBadRequest, ErrorMessage(OnlyImagesUpload));
    }
    if file.None? {
      return Reply(StatusBadRequest, ErrorMessage(OnlyUploadImages));
    }
    var a := s.user.(avatar := Some(file.value.png));
    SaveUnmodified(a);
    db.WriteAccount(a);
    return Reply(StatusOk, SuccessMessage(UploadedSuccessfully));
  }

  /** `DELETE /users/me/avatar`: 404 without an avatar, else the avatar is removed. */
  method ClearAvatar(db: Db, s: Session) returns (reply: Reply)
    requires db.Valid() && Admitted(db.users, s)
    modifies db
    ensures db.Valid()
    ensures db.tasks == old(db.tasks) && db.nextId == old(db.nextId)
    ensures s.user.avatar.None? ==>
      reply == Reply(StatusNotFound, ErrorMessage(NoAvatarFound)) && db.users == old(db.users)
    ensures s.user.avatar.Some? ==>
      reply == Reply(StatusOk, SuccessMessage(DeletedSuccessfully))
      && db.users == old(db.users)[s.user.id := s.user.(avatar := None)]
  {
    if s.user.avatar.None? {
      return Reply(StatusNotFound, ErrorMessage(NoAvatarFound));
    }
    var a := s.user.(avatar := None);
    SaveUnmodified(a);
    db.WriteAccount(a);
    return Reply(StatusOk, SuccessMessage(DeletedSuccessfully));
  }

  /**
   * `GET /users/:id/avatar`, open to anyone: the image of the account with
   * that id; an id that does not cast, an unknown account and an account
   * without an avatar all give an empty 404.
   */
  method ReadAvatar(db: Db, idParam: string) returns (reply: Reply)
    ensures reply.status == StatusOk || reply == Reply(StatusNotFound, Empty)
    ensures reply.status == StatusOk <==>
      ParseNat(idParam).Some? && ParseNat(idParam).value in db.users
      && db.users[ParseNat(idParam).value].avatar.Some?
    ensures reply.status == StatusOk ==>
      reply.payload == Image(db.users[ParseNat(idParam).value].avatar.value)
  {
    var id := ParseNat(idParam);
    if id.None? || id.value !in db.users || db.users[id.value].avatar.None? {
      return Reply(StatusNotFound, Empty);
    }
    return Reply(StatusOk, Image(db.users[id.value].avatar.value));
  }

  // ---------------------------------------------------------------------------
  // DELETE /users/me
  // ---------------------------------------------------------------------------

  /**
   * `req.user.remove()`: the account and, through the remove hook, every task
   * it owns; the reply is the removed profile.
   */
  method DeleteMe(db: Db, s: Session) returns (reply: Reply)
    requires db.Valid() && Admitted(db.users, s)
    modifies db
    ensures db.Valid()
    ensures reply == Reply(StatusOk, Profile(ToJson(s.user)))
    ensures db.users == old(db.users) - {s.user.id}
    ensures forall k :: k in db.tasks ==> db.tasks[k].owner != s.user.id
    ensures forall k :: k in old(db.tasks) && old(db.tasks)[k].owner != s.user.id ==>
      k in db.tasks && db.tasks[k] == old(db.tasks)[k]
    ensures db.tasks.Keys <= old(db.tasks).Keys && db.nextId == old(db.nextId)
  {
    db.RemoveAccount(s.user.id);
    return Reply(StatusOk, Profile(ToJson(s.user)));
  }
}
