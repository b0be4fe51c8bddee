/**
 * The `authUser` middleware: take the token out of the Authorization header,
 * verify it, and admit the request only when the account it names still
 * lists that token. Every failure ends in the same 403.
 */
module Auth {
  import opened Wrappers
  import opened Text
  import opened Crypto
  import opened UserModel
  import opened Http
  import opened Store

  const BearerPrefix: string := "Bearer "
  const PleaseAuthenticate: string := "Please authenticate."

  /** The one reply every rejected request gets. */
  const Rejection: Reply := Reply(StatusForbidden, ErrorMessage(PleaseAuthenticate))

  /** The header with its first "Bearer " removed, wherever it stands. */
  function ExtractToken(header: string): (token: string)
    ensures !Contains(header, BearerPrefix) ==> token == header
  {
    ReplaceFirst(header, BearerPrefix, "")
  }

  /** A header of the documented form yields exactly the token after the prefix. */
  lemma ExtractBearer(token: string)
    ensures ExtractToken(BearerPrefix + token) == token
  {
    ReplaceFirstPrefix(BearerPrefix, token);
  }

  /** What the middleware attaches to the request: `req.user` and `req.token`. */
  datatype Session = Session(user: Account, token: string)

  /**
   * The decision the middleware takes. A missing header (calling `replace`
   * on undefined throws), a token that does not verify, and an account that
   * is gone or no longer lists the token all give `Err(Rejection)`.
   */
  function Authenticate(users: map<nat, Account>, header: Option<string>): (r: Result<Session, Reply>)
    ensures r.Err? ==> r.error == Rejection
    ensures r.Ok? <==>
      && header.Some?
      && Verify(ExtractToken(header.value)).Some?
      && Verify(ExtractToken(header.value)).value in users
      && ExtractToken(header.value) in users[Verify(ExtractToken(header.value)).value].tokens
    ensures r.Ok? ==> r.value.token == ExtractToken(header.value)
    ensures r.Ok? ==> r.value.user == users[Verify(r.value.token).value]
  {
    if header.None? then Err(Rejection)
    else
      var token := ExtractToken(header.value);
      match Verify(token)
      case None => Err(Rejection)
      case Some(id) =>
        if id in users && token in users[id].tokens then
          Ok(Session(users[id], token))
        else Err(Rejection)
  }

  /** The session a request carries once it was admitted. */
  ghost predicate Admitted(users: map<nat, Account>, s: Session) {
    && s.user.id in users && users[s.user.id] == s.user
    && s.token in s.user.tokens && Verify(s.token) == Some(s.user.id)
  }

  /** In a valid store an admitted request carries the account it names, which lists its token. */
  lemma AuthenticateAdmits(users: map<nat, Account>, bound: nat, header: Option<string>)
    requires UsersValid(users, bound)
    requires Authenticate(users, header).Ok?
    ensures Admitted(users, Authenticate(users, header).value)
  {
  }

  /**
   * A token issued to an account and still listed there opens a session for
   * that account and no other.
   */
  lemma ListedTokenAuthenticates(users: map<nat, Account>, id: nat, iat: nat)
    requires id in users && users[id].id == id && Sign(id, iat) in users[id].tokens
    ensures Authenticate(users, Some(BearerPrefix + Sign(id, iat))) ==
            Ok(Session(users[id], Sign(id, iat)))
  {
    ExtractBearer(Sign(id, iat));
    VerifySign(id, iat);
  }

  /** A token no longer listed by the account it names is refused, whatever header carries it. */
  lemma RevokedTokenRejected(users: map<nat, Account>, header: string)
    requires Verify(ExtractToken(header)).Some?
    requires var id := Verify(ExtractToken(header)).value;
             id in users ==> ExtractToken(header) !in users[id].tokens
    ensures Authenticate(users, Some(header)) == Err(Rejection)
  {
  }

  /** A token signed for one account never opens a session for another. */
  lemma NoCrossAccountSession(users: map<nat, Account>, a: nat, iat: nat, header: string)
    requires ExtractToken(header) == Sign(a, iat)
    requires Authenticate(users, Some(header)).Ok?
    ensures a in users && Authenticate(users, Some(header)).value.user == users[a]
  {
    VerifySign(a, iat);
  }

  /** The request object, whose `user` and `token` the middleware assigns. */
  class Request {
    const header: Option<string>
    var token: Option<string>
    var user: Option<Account>

    constructor (header: Option<string>)
      ensures this.header == header && token.None? && user.None?
    {
      this.header := header;
      token := None;
      user := None;
    }
  }

  /**
   * `authUser(req, res, next)`. Admitted: `req.token` and `req.user` are set
   * and no reply is sent (`next()`). Rejected: the 403 reply and the request
   * untouched. The stores are only read.
   */
  method AuthUser(db: Db, req: Request) returns (rejected: Option<Reply>)
    modifies req
    ensures var r := Authenticate(db.users, req.header);
      && (r.Ok? ==> rejected.None? && req.token == Some(r.value.token) && req.user == Some(r.value.user))
      && (r.Err? ==> rejected == Some(Rejection) && req.token == old(req.token) && req.user == old(req.user))
  {
    match Authenticate(db.users, req.header)
    case Ok(s) =>
      req.token := Some(s.token);
      req.user := Some(s.user);
      return None;
    case Err(reply) =>
      return Some(reply);
  }
}
