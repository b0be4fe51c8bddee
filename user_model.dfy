/**
 * The User schema: field setters (trim, lowercase) and validators (required,
 * password length and forbidden word, non-negative age, e-mail format), the
 * `pre('save')` re-hash rule and the `toJSON` projection.
 */
module UserModel {
  import opened Wrappers
  import opened Text
  import opened Json
  import opened Crypto

  datatype Account = Account(
    id: nat,
    name: string,
    email: string,
    password: string,         // the bcrypt digest once saved
    age: int,
    tokens: seq<string>,      // active session tokens, oldest first
    avatar: Option<seq<bv8>>  // the normalised PNG, if any
  )

  /** The fields a body may set: the schema's own paths other than tokens and avatar. */
  const ProfilePaths: set<string> := {"name", "email", "password", "age"}

  const MinPasswordLength: nat := 7
  const ForbiddenInPassword: string := "password"

  /** A new document before any body value is assigned: age takes its default 0. */
  function Blank(id: nat): Account {
    Account(id, "", "", "", 0, [], None)
  }

  // ---------------------------------------------------------------------------
  // Setters and casts
  // ---------------------------------------------------------------------------

  /** The e-mail setters: trimmed and lower-cased (the two commute, TrimLowerCommute). */
  function NormaliseEmail(raw: string): (e: string)
    ensures |e| == |Trim(raw)| && IsLower(e)
  {
    Lower(Trim(raw))
  }

  /** No surrounding whitespace and no upper-case letter. */
  predicate NormalisedEmail(e: string) {
    Trimmed(e) && IsLower(e)
  }

  /**
   * Whatever was sent, the stored e-mail is normalised, and a normalised
   * e-mail is a fixed point of both setters.
   */
  lemma EmailStoredNormalised(raw: string)
    ensures NormalisedEmail(NormaliseEmail(raw))
    ensures NormaliseEmail(NormaliseEmail(raw)) == NormaliseEmail(raw)
  {
    TrimLowerCommute(raw);
    NormalisedFixed(NormaliseEmail(raw));
  }

  lemma NormalisedFixed(e: string)
    requires NormalisedEmail(e)
    ensures Trim(e) == e && Lower(e) == e && NormaliseEmail(e) == e
  {
    TrimFixed(e);
  }

  predicate ProfileCasts(key: string, v: Value) {
    if key == "age" then CastNumber(v).Some?
    else if key in ProfilePaths then CastString(v).Some?
    else true
  }

  /** `user[key] = v` through the cast and setter of that path; a value that does not cast is not assigned. */
  function AssignProfile(a: Account, key: string, v: Value): (r: Account)
    ensures r.id == a.id && r.tokens == a.tokens && r.avatar == a.avatar
    ensures key !in ProfilePaths || !ProfileCasts(key, v) ==> r == a
  {
    if key == "name" && CastString(v).Some? then a.(name := Trim(CastString(v).value))
    else if key == "email" && CastString(v).Some? then a.(email := NormaliseEmail(CastString(v).value))
    else if key == "password" && CastString(v).Some? then a.(password := Trim(CastString(v).value))
    else if key == "age" && CastNumber(v).Some? then a.(age := CastNumber(v).value)
    else a
  }

  /** Every profile key of `body` assigned to `a`, in any order (the keys are distinct paths). */
  function PatchProfile(a: Account, body: Body): (r: Account)
    ensures r.id == a.id && r.tokens == a.tokens && r.avatar == a.avatar
  {
    a.(name := if "name" in body && CastString(body["name"]).Some?
               then Trim(CastString(body["name"]).value) else a.name,
       email := if "email" in body && CastString(body["email"]).Some?
                then NormaliseEmail(CastString(body["email"]).value) else a.email,
       password := if "password" in body && CastString(body["password"]).Some?
                   then Trim(CastString(body["password"]).value) else a.password,
       age := if "age" in body && CastNumber(body["age"]).Some?
              then CastNumber(body["age"]).value else a.age)
  }

  /** The profile paths of `body` whose value does not cast. */
  function ProfileCastErrors(body: Body): (errs: set<string>)
    ensures errs <= ProfilePaths
  {
    set k | k in body && k in ProfilePaths && !ProfileCasts(k, body[k])
  }

  /** Assigning one more key is patching with a body that holds that key too. */
  lemma PatchProfileStep(a: Account, m: Body, k: string, v: Value)
    requires k !in m
    ensures AssignProfile(PatchProfile(a, m), k, v) == PatchProfile(a, m[k := v])
    ensures ProfileCastErrors(m[k := v]) ==
            ProfileCastErrors(m) + (if k in ProfilePaths && !ProfileCasts(k, v) then {k} else {})
  {
    var m' := m[k := v];
    forall p | p in ProfilePaths && p != k ensures (p in m' <==> p in m) && (p in m ==> m'[p] == m[p]) {
    }
    var l, r := AssignProfile(PatchProfile(a, m), k, v), PatchProfile(a, m');
    assert l.name == r.name && l.email == r.email && l.password == r.password && l.age == r.age;
    ProfileCastErrorsStep(m, k, v);
  }

  /** The cast errors of a body with one more key grow by at most that key. */
  lemma ProfileCastErrorsStep(m: Body, k: string, v: Value)
    requires k !in m
    ensures ProfileCastErrors(m[k := v]) ==
            ProfileCastErrors(m) + (if k in ProfilePaths && !ProfileCasts(k, v) then {k} else {})
  {
    var m' := m[k := v];
    var extra := if k in ProfilePaths && !ProfileCasts(k, v) then {k} else {};
    forall x ensures x in ProfileCastErrors(m') <==> x in ProfileCastErrors(m) + extra {
      if x != k {
        assert x in m' <==> x in m;
      }
    }
  }

  /** Patching keeps the e-mail normalised, whatever the body sends. */
  lemma PatchProfileNormalised(a: Account, body: Body)
    requires NormalisedEmail(a.email)
    ensures NormalisedEmail(PatchProfile(a, body).email)
  {
    if "email" in body && CastString(body["email"]).Some? {
      EmailStoredNormalised(CastString(body["email"]).value);
    }
  }

  /**
   * A patch assigns only profile paths: id, tokens and avatar stay, an absent
   * path stays, and a present path that casts takes its setter's value.
   */
  lemma PatchProfileFrame(a: Account, body: Body)
    ensures var p := PatchProfile(a, body);
      && p.id == a.id && p.tokens == a.tokens && p.avatar == a.avatar
      && ("name" !in body ==> p.name == a.name)
      && ("email" !in body ==> p.email == a.email)
      && ("password" !in body ==> p.password == a.password)
      && ("age" !in body ==> p.age == a.age)
      && ("name" in body && CastString(body["name"]).Some? ==> p.name == Trim(CastString(body["name"]).value))
      && ("email" in body && CastString(body["email"]).Some? ==>
            p.email == NormaliseEmail(CastString(body["email"]).value))
      && ("password" in body && CastString(body["password"]).Some? ==>
            p.password == Trim(CastString(body["password"]).value))
      && ("age" in body && CastNumber(body["age"]).Some? ==> p.age == CastNumber(body["age"]).value)
  {
  }

  // ---------------------------------------------------------------------------
  // Validators
  // ---------------------------------------------------------------------------

  /**
   * Stand-in for validator.isEmail: one '@' with a non-empty local part before
   * it and, after it, a domain holding a dot that neither starts nor ends it;
   * no whitespace anywhere.
   */
  predicate IsEmail(s: string)
    ensures IsEmail(s) ==> '@' in s && |s| >= 4 && Trimmed(s)
  {
    match IndexOf(s, '@')
    case None => false
    case Some(i) =>
      var local, domain := s[..i], s[i + 1..];
      && local != []
      && domain != [] && '@' !in domain && '.' in domain
      && domain[0] != '.' && domain[|domain| - 1] != '.'
      && forall k :: 0 <= k < |s| ==> !IsSpace(s[k])
  }

  /**
   * minlength 7, counted as `value.length` counts (UTF-16 code units), and the
   * lower-cased value must not include "password".
   */
  predicate PasswordOk(p: string)
    ensures PasswordOk(p) ==> Utf16Length(p) >= MinPasswordLength && |p| >= 4
    ensures PasswordOk(p) ==> !Contains(p, ForbiddenInPassword)
  {
    LowerContains(p, ForbiddenInPassword);
    Utf16Length(p) >= MinPasswordLength && !Contains(Lower(p), ForbiddenInPassword)
  }

  /** Every path whose validator fails (required fails on the empty string). */
  function AccountErrors(a: Account): (errs: set<string>)
    ensures errs <= ProfilePaths
    ensures "name" in errs <==> a.name == ""
    ensures "email" in errs <==> !(a.email != "" && IsEmail(a.email))
    ensures "password" in errs <==> !PasswordOk(a.password)
    ensures "age" in errs <==> a.age < 0
  {
    (if a.name == "" then {"name"} else {})
    + (if a.email != "" && IsEmail(a.email) then {} else {"email"})
    + (if PasswordOk(a.password) then {} else {"password"})
    + (if a.age < 0 then {"age"} else {})
  }

  predicate SchemaValid(a: Account) {
    AccountErrors(a) == {}
  }

  /** What every stored account satisfies. */
  predicate StoredAccount(a: Account) {
    SchemaValid(a) && NormalisedEmail(a.email)
  }

  /**
   * The password rule as a client sees it: the value sent is trimmed, then it
   * is rejected when shorter than 7 or when its lower case includes "password".
   */
  lemma PasswordRule(a: Account, raw: string)
    ensures var p := PatchProfile(a, map["password" := Str(raw)]);
      "password" in AccountErrors(p) <==>
        Utf16Length(Trim(raw)) < 7 || Contains(Lower(Trim(raw)), "password")
  {
  }

  /** Age defaults to 0, which passes; any negative age is rejected. */
  lemma AgeRule(id: nat, n: int)
    ensures Blank(id).age == 0 && "age" !in AccountErrors(Blank(id))
    ensures "age" in AccountErrors(PatchProfile(Blank(id), map["age" := Num(n)])) <==> n < 0
  {
  }

  // ---------------------------------------------------------------------------
  // The pre('save') hook
  // ---------------------------------------------------------------------------

  /** A digest of a valid password passes the password validators again. */
  lemma {:induction false} HashKeepsPasswordRules(p: string)
    requires PasswordOk(p)
    ensures PasswordOk(Hash(p))
  {
    Utf16LengthAppend(DigestPrefix, p);
    LowerAppend(DigestPrefix, p);
    assert Lower(DigestPrefix) == DigestPrefix;
    ContainsAfterGuard(DigestPrefix, Lower(p), ForbiddenInPassword);
  }

  /**
   * `save()`: the validators run first, on every path; then the hook replaces
   * the password by its digest when, and only when, the password path was
   * modified. A failing validation saves nothing and reports the failing paths,
   * together with the paths that did not cast.
   */
  function Save(doc: Account, passwordModified: bool, castErrors: set<string>): (r: Result<Account, set<string>>)
    ensures r.Err? <==> castErrors + AccountErrors(doc) != {}
    ensures r.Err? ==> r.error == castErrors + AccountErrors(doc)
    ensures r.Ok? ==> r.value.password == (if passwordModified then Hash(doc.password) else doc.password)
    ensures r.Ok? ==> r.value == doc.(password := r.value.password)
    ensures r.Ok? ==> SchemaValid(r.value)
  {
    var errs := castErrors + AccountErrors(doc);
    if errs != {} then Err(errs)
    else if passwordModified then
      HashKeepsPasswordRules(doc.password);
      Ok(doc.(password := Hash(doc.password)))
    else Ok(doc)
  }

  /** Saving an account that passes its validators, password untouched, stores it as it is. */
  lemma SaveUnmodified(a: Account)
    requires SchemaValid(a)
    ensures Save(a, false, {}) == Ok(a)
  {
  }

  /** A save never alters the e-mail, so a normalised e-mail stays normalised. */
  lemma SaveStored(doc: Account, modified: bool, castErrors: set<string>)
    requires NormalisedEmail(doc.email) && Save(doc, modified, castErrors).Ok?
    ensures StoredAccount(Save(doc, modified, castErrors).value)
  {
  }

  /**
   * After a save that hashed a new password, exactly that (trimmed) password
   * matches the stored digest.
   */
  lemma SavedPasswordMatches(doc: Account, castErrors: set<string>, attempt: string)
    requires Save(doc, true, castErrors).Ok?
    ensures Compare(attempt, Save(doc, true, castErrors).value.password) <==> attempt == doc.password
  {
    CompareHash(attempt, doc.password);
  }

  // ---------------------------------------------------------------------------
  // toJSON
  // ---------------------------------------------------------------------------

  /** The paths `toJSON` deletes. */
  const HiddenPaths: set<string> := {"password", "tokens", "avatar"}

  /** `user.toObject()`: every stored path of the document. */
  function ToObject(a: Account): (r: map<string, Value>)
    ensures r.Keys == {"_id", "name", "email", "password", "age", "tokens"} + (if a.avatar.Some? then {"avatar"} else {})
    ensures r["_id"] == ObjectId(a.id) && r["name"] == Str(a.name) && r["email"] == Str(a.email)
    ensures r["password"] == Str(a.password) && r["age"] == Num(a.age)
  {
    map["_id" := ObjectId(a.id), "name" := Str(a.name), "email" := Str(a.email),
        "password" := Str(a.password), "age" := Num(a.age),
        "tokens" := List(seq(|a.tokens|, i requires 0 <= i < |a.tokens| => Str(a.tokens[i])))]
    + (if a.avatar.Some? then map["avatar" := Binary(a.avatar.value)] else map[])
  }

  /**
   * `toJSON`: the object without password, tokens and avatar; every other path
   * is kept with its value.
   */
  function ToJson(a: Account): (r: map<string, Value>)
    ensures r.Keys !! HiddenPaths
    ensures r.Keys == ToObject(a).Keys - HiddenPaths
    ensures forall k :: k in r ==> r[k] == ToObject(a)[k]
  {
    ToObject(a) - HiddenPaths
  }

  /**
   * The outward form reveals nothing of the password digest, the tokens or the
   * avatar: accounts that differ only there serialise identically.
   */
  lemma ToJsonHidesSecrets(a: Account, b: Account)
    requires a.id == b.id && a.name == b.name && a.email == b.email && a.age == b.age
    ensures ToJson(a) == ToJson(b)
  {
    ToJsonContents(a);
    ToJsonContents(b);
  }

  /** The outward form, spelled out. */
  lemma ToJsonContents(a: Account)
    ensures ToJson(a) == map["_id" := ObjectId(a.id), "name" := Str(a.name),
                             "email" := Str(a.email), "age" := Num(a.age)]
  {
    assert ToJson(a).Keys == {"_id", "name", "email", "age"};
  }
}
