/** The account endpoints (api/login.kt): log in, create an account, log out, the current
    user, and the password-reset pair. BCrypt's `checkpw` and salted `hashpw`, the clock and
    the random reset token are parameters. */
module LoginApi {
  import opened Wrappers
  import opened Text
  import opened Seqs
  import opened Roles
  import opened Users
  import opened Entities
  import opened Tables
  import opened FailureResponses

  const AUTH_FAILED: string := "Authentication failed."
  const NO_ACTIVE_USER: string := "No active user."
  const ALREADY_LOGGED_IN: string := "Already logged in!"
  const BAD_TOKEN: string := "Bad token."
  const RESET_EXPIRED: string := "Password reset expired. Please request a new one."

  /** How long a reset token stays usable: 30 minutes, in milliseconds. */
  const RESET_LIFETIME: int := 30 * 60 * 1000

  /** `formParamOrFail`, with its message. */
  function RequireParam(form: Form, name: string): (r: Reply<string>)
    ensures r.Reject? <==> FormParam(form, name).None?
    ensures r.Reject? ==> r.rejection == Rejection(BadRequest, "'" + name + "' parameter missing.")
    ensures r.Success? ==> r.value == form[name][0]
  {
    match FormParamOrFail(form, name)
    case Ok(v) => Success(v)
    case Err(_) => Reject(Rejection(BadRequest, "'" + name + "' parameter missing."))
  }

  /** `User.find { Users.name eq name }.firstOrNull()`. */
  function UserByName(users: seq<User>, name: string): (r: Option<User>)
    ensures r.Some? ==> r.value in users && r.value.name == name
    ensures r.None? <==> forall u :: u in users ==> u.name != name
  {
    FirstOrNone(users, (u: User) => u.name == name)
  }

  predicate NameTaken(users: seq<User>, name: string) {
    exists i :: 0 <= i < |users| && users[i].name == name
  }

  predicate EmailTaken(users: seq<User>, email: string) {
    exists i :: 0 <= i < |users| && users[i].email == email
  }

  // ---------------------------------------------------------------- login

  /** The stored hash as it is checked: every php-era "$2y$" becomes "$2a$". */
  function CheckedHash(stored: string): string {
    ReplaceAll(stored, "$2y$", "$2a$")
  }

  /** A "$2y$" hash is checked as a "$2a$" hash, a hash without "$2y$" is checked as stored,
      and the rewrite never changes the length. */
  lemma CheckedHashSpec(stored: string)
    ensures "$2y$" <= stored ==> "$2a$" <= CheckedHash(stored)
    ensures !Contains(stored, "$2y$") ==> CheckedHash(stored) == stored
    ensures |CheckedHash(stored)| == |stored|
  {
    if "$2y$" <= stored {
      ReplaceAllPrefix(stored, "$2y$", "$2a$");
    }
    if !Contains(stored, "$2y$") {
      ReplaceAllAbsent(stored, "$2y$", "$2a$");
    }
    ReplaceAllLength(stored, "$2y$", "$2a$");
  }

  /** What `login` answers and the session it leaves. */
  datatype LoginResult = LoginResult(reply: Reply<User>, session: Session)

  /** `login`: a logged-in session is answered with its user and nothing is read; otherwise
      the username and the password must be present, the first user with that name must exist
      and `checkpw` must accept the password against the rewritten hash. Success stores the
      user and its rank in the session. */
  function Login(users: seq<User>, session: Session, form: Form, checkpw: (string, string) -> bool): (r: LoginResult)
    ensures session.user.Some? ==> r == LoginResult(Success(session.user.value), session)
    ensures r.reply.Reject? ==> r.session == session
    ensures r.reply.Success? && session.user.None? ==>
      && FormParam(form, "username").Some? && FormParam(form, "password").Some?
      && UserByName(users, FormParam(form, "username").value) == Some(r.reply.value)
      && checkpw(FormParam(form, "password").value, CheckedHash(r.reply.value.password))
      && r.session == Session(Some(r.reply.value), Some(r.reply.value.rank))
  {
    if session.user.Some? then LoginResult(Success(session.user.value), session)
    else match (RequireParam(form, "username"), RequireParam(form, "password"))
      case (Reject(e), _) => LoginResult(Reject(e), session)
      case (_, Reject(e)) => LoginResult(Reject(e), session)
      case (Success(username), Success(password)) =>
        match UserByName(users, username)
        case None => LoginResult(Reject(Rejection(Unauthorized, AUTH_FAILED)), session)
        case Some(u) =>
          if checkpw(password, CheckedHash(u.password)) then
            LoginResult(Success(u), Session(Some(u), Some(u.rank)))
          else LoginResult(Reject(Rejection(Unauthorized, AUTH_FAILED)), session)
  }

  /** With both credentials present, an unknown name and a wrong password give the same
      answer, so a client cannot learn which names exist; and the login succeeds exactly when
      neither happened. */
  lemma LoginFailuresAlike(users: seq<User>, session: Session, form: Form, checkpw: (string, string) -> bool)
    requires session.user.None?
    requires FormParam(form, "username").Some? && FormParam(form, "password").Some?
    ensures var u := UserByName(users, FormParam(form, "username").value);
      var r := Login(users, session, form, checkpw);
      && (r.reply.Success? <==> u.Some? && checkpw(FormParam(form, "password").value, CheckedHash(u.value.password)))
      && (r.reply.Reject? ==> r.reply.rejection == Rejection(Unauthorized, AUTH_FAILED))
  {
  }

  /** A missing credential is reported before any user is looked up, username first. */
  lemma LoginMissingCredential(users: seq<User>, session: Session, form: Form, checkpw: (string, string) -> bool)
    requires session.user.None?
    requires FormParam(form, "username").None? || FormParam(form, "password").None?
    ensures var r := Login(users, session, form, checkpw);
      && r.reply.Reject? && r.reply.rejection.kind == BadRequest
      && (FormParam(form, "username").None? ==> r.reply.rejection == RequireParam(form, "username").rejection)
  {
  }

  // ---------------------------------------------------------------- current and logout

  /** `current`: the session user, or NotFound. */
  function Current(session: Session): (r: Reply<User>)
    ensures r.Success? <==> session.user.Some?
    ensures r.Success? ==> r.value == session.user.value
    ensures r.Reject? ==> r.rejection == Rejection(NotFound, NO_ACTIVE_USER)
  {
    match session.user
    case None => Reject(Rejection(NotFound, NO_ACTIVE_USER))
    case Some(u) => Success(u)
  }

  /** `logout`: the session is invalidated, so it holds neither user nor role. */
  function Logout(session: Session): (r: Session)
    ensures r.user.None? && r.role.None?
  {
    Session(None, None)
  }

  /** After a successful login the session's user is the one logged in and the role-based
      checks see its rank; after logout there is no current user and the role is default. */
  lemma LoginThenCurrent(users: seq<User>, session: Session, form: Form, checkpw: (string, string) -> bool)
    requires Login(users, session, form, checkpw).reply.Success?
    ensures var r := Login(users, session, form, checkpw);
      && Current(r.session) == r.reply
      && (session.user.None? ==> AccessOf(r.session) == r.reply.value.rank)
      && Current(Logout(r.session)).Reject?
      && AccessOf(Logout(r.session)) == Default
  {
  }

  // ---------------------------------------------------------------- new account

  /** `new`: a logged-in session gets ALREADY_LOGGED_IN; name and email must be present; an
      email in use gives EMAIL_IN_USE, checked before the name (NAME_IN_USE); only then is the
      password read. The new user has the default rank, `hashpw` of the password, and `now`
      as both timestamps. */
  function NewAccountReply(users: seq<User>, session: Session, form: Form, hashpw: string -> string,
                           newId: int, now: int): (r: Reply<User>)
    ensures session.user.Some? ==> r == Reject(ThrowResponse(AlreadyLoggedIn))
    ensures r.Success? ==>
      && session.user.None?
      && FormParam(form, "name").Some? && FormParam(form, "email").Some? && FormParam(form, "password").Some?
      && !EmailTaken(users, FormParam(form, "email").value)
      && !NameTaken(users, FormParam(form, "name").value)
      && r.value == User(newId, FormParam(form, "name").value, FormParam(form, "email").value,
                         hashpw(FormParam(form, "password").value), Default, now, now)
  {
    if session.user.Some? then Reject(ThrowResponse(AlreadyLoggedIn))
    else
      var name :- RequireParam(form, "name");
      var email :- RequireParam(form, "email");
      if EmailTaken(users, email) then Reject(ThrowResponse(EmailInUse))
      else if NameTaken(users, name) then Reject(ThrowResponse(NameInUse))
      else
        var password :- RequireParam(form, "password");
        Success(User(newId, name, email, hashpw(password), Default, now, now))
  }

  /** The order of the checks: with name and email present, a taken email wins over a taken
      name, and a missing password is only reported when both are free. */
  lemma NewAccountCheckOrder(users: seq<User>, form: Form, hashpw: string -> string, newId: int, now: int)
    requires FormParam(form, "name").Some? && FormParam(form, "email").Some?
    ensures var name := FormParam(form, "name").value;
      var email := FormParam(form, "email").value;
      var r := NewAccountReply(users, Session(None, None), form, hashpw, newId, now);
      && (EmailTaken(users, email) ==> r == Reject(ThrowResponse(EmailInUse)))
      && (!EmailTaken(users, email) && NameTaken(users, name) ==> r == Reject(ThrowResponse(NameInUse)))
      && (!EmailTaken(users, email) && !NameTaken(users, name) ==>
            (r.Reject? <==> FormParam(form, "password").None?))
  {
  }

  /** No two accounts share a name or an email. */
  predicate AccountsDistinct(users: seq<User>) {
    forall i, j :: 0 <= i < j < |users| ==> users[i].name != users[j].name && users[i].email != users[j].email
  }

  /** Account creation keeps names and emails unique. */
  lemma NewAccountKeepsDistinct(users: seq<User>, session: Session, form: Form, hashpw: string -> string,
                                newId: int, now: int)
    requires AccountsDistinct(users)
    requires NewAccountReply(users, session, form, hashpw, newId, now).Success?
    ensures AccountsDistinct(users + [NewAccountReply(users, session, form, hashpw, newId, now).value])
  {
    var u := NewAccountReply(users, session, form, hashpw, newId, now).value;
    var r := users + [u];
    forall i, j | 0 <= i < j < |r| ensures r[i].name != r[j].name && r[i].email != r[j].email {
      if j == |users| {
        assert r[i] == users[i];
      } else {
        assert r[i] == users[i] && r[j] == users[j];
      }
    }
  }

  /** Adding a user keeps every module's owner reference valid. */
  lemma OwnersExistAppendUser(users: seq<User>, modules: seq<Module>, u: User)
    requires OwnersExist(users, modules)
    ensures OwnersExist(users + [u], modules)
  {
    forall m | m in modules ensures OwnerOf(users + [u], m).Some? {
      var o := OwnerOf(users, m).value;
      assert o in users + [u];
    }
  }

  /** `new` as it runs: the user row is inserted on success; any rejection rolls the
      transaction back. */
  method NewAccount(db: Database, session: Session, form: Form, hashpw: string -> string, newId: int, now: int)
    returns (res: Reply<User>)
    modifies db`users
    ensures res == NewAccountReply(old(db.users), session, form, hashpw, newId, now)
    ensures res.Success? ==> db.users == old(db.users) + [res.value]
    ensures res.Reject? ==> db.users == old(db.users)
    ensures old(db.Valid()) ==> db.Valid()
  {
    res := NewAccountReply(db.users, session, form, hashpw, newId, now);
    if res.Success? {
      if db.Valid() {
        OwnersExistAppendUser(db.users, db.modules, res.value);
      }
      db.users := db.users + [res.value];
    }
  }

  // ---------------------------------------------------------------- password reset

  /** The mail `requestReset` sends: the address and the token. */
  datatype ResetMail = ResetMail(email: string, token: string)

  /** `requestReset`: rejected for a logged-in session or a missing email; otherwise a reset row
      expiring 30 minutes from `now` is inserted and the mail sent, whether or not any user has
      that email (the lookup's result is not used). */
  method RequestReset(db: Database, session: Session, form: Form, token: string, now: int)
    returns (res: Reply<ResetMail>)
    modifies db`resets
    ensures session.user.Some? ==> res == Reject(Rejection(Unauthorized, ALREADY_LOGGED_IN))
    ensures session.user.None? ==>
      (res.Reject? <==> FormParam(form, "email").None?)
      && (res.Reject? ==> res.rejection == RequireParam(form, "email").rejection)
    ensures res.Reject? ==> db.resets == old(db.resets)
    ensures res.Success? ==>
      && res.value == ResetMail(FormParam(form, "email").value, token)
      && db.resets == old(db.resets) + [PasswordReset(res.value.email, token, now + RESET_LIFETIME)]
  {
    if session.user.Some? {
      return Reject(Rejection(Unauthorized, ALREADY_LOGGED_IN));
    }
    var email := RequireParam(form, "email");
    if email.Reject? {
      return Reject(email.rejection);
    }
    db.resets := db.resets + [PasswordReset(email.value, token, now + RESET_LIFETIME)];
    return Success(ResetMail(email.value, token));
  }

  /** The reset rows carrying a token. */
  function TokenRows(resets: seq<PasswordReset>, token: string): seq<PasswordReset> {
    Filter(resets, (p: PasswordReset) => p.token == token)
  }

  /** The first user with an email. */
  function UserIndexByEmail(users: seq<User>, email: string): (r: Option<nat>)
    ensures r.None? <==> forall i :: 0 <= i < |users| ==> users[i].email != email
    ensures r.Some? ==> r.value < |users| && users[r.value].email == email
    ensures r.Some? ==> forall i :: 0 <= i < r.value ==> users[i].email != email
  {
    FirstIndex(users, (u: User) => u.email == email)
  }

  /** The user whose password `completeReset` sets, and the new hash. */
  datatype ResetTarget = ResetTarget(index: nat, password: string)

  /** `completeReset`: rejected for a logged-in session; password and token must be present;
      exactly one reset row must carry the token, and it must not have expired; the first user
      with the row's email gets `hashpw` of the new password. */
  function CompleteResetReply(users: seq<User>, resets: seq<PasswordReset>, session: Session, form: Form,
                              now: int, hashpw: string -> string): (r: Reply<ResetTarget>)
    ensures session.user.Some? ==> r == Reject(Rejection(Unauthorized, ALREADY_LOGGED_IN))
    ensures r.Success? <==>
      && session.user.None?
      && FormParam(form, "password").Some? && FormParam(form, "token").Some?
      && |TokenRows(resets, FormParam(form, "token").value)| == 1
      && now <= TokenRows(resets, FormParam(form, "token").value)[0].expiration
      && UserIndexByEmail(users, TokenRows(resets, FormParam(form, "token").value)[0].email).Some?
    ensures r.Success? ==>
      && r.value.index == UserIndexByEmail(users, TokenRows(resets, FormParam(form, "token").value)[0].email).value
      && r.value.password == hashpw(FormParam(form, "password").value)
  {
    if session.user.Some? then Reject(Rejection(Unauthorized, ALREADY_LOGGED_IN))
    else
      var password :- RequireParam(form, "password");
      var token :- RequireParam(form, "token");
      var rows := TokenRows(resets, token);
      if |rows| != 1 then Reject(Rejection(BadRequest, BAD_TOKEN))
      else if rows[0].expiration < now then Reject(Rejection(BadRequest, RESET_EXPIRED))
      else match UserIndexByEmail(users, rows[0].email)
        case None => Reject(Rejection(BadRequest, BAD_TOKEN))
        case Some(i) => Success(ResetTarget(i, hashpw(password)))
  }

  /** The users table after a reset: only the target's password changes (its `updatedAt`
      is left as it was). */
  function ApplyReset(users: seq<User>, t: ResetTarget): (r: seq<User>)
    requires t.index < |users|
    ensures |r| == |users| && r[t.index] == users[t.index].(password := t.password)
    ensures forall i :: 0 <= i < |users| && i != t.index ==> r[i] == users[i]
  {
    users[t.index := users[t.index].(password := t.password)]
  }

  /** An expired token and a token shared by several rows are both refused. */
  lemma CompleteResetRejects(users: seq<User>, resets: seq<PasswordReset>, form: Form, now: int,
                             hashpw: string -> string)
    requires FormParam(form, "password").Some? && FormParam(form, "token").Some?
    ensures var rows := TokenRows(resets, FormParam(form, "token").value);
      var r := CompleteResetReply(users, resets, Session(None, None), form, now, hashpw);
      && (|rows| != 1 ==> r == Reject(Rejection(BadRequest, BAD_TOKEN)))
      && (|rows| == 1 && rows[0].expiration < now ==> r == Reject(Rejection(BadRequest, RESET_EXPIRED)))
  {
  }

  /** The reset row is not deleted, so a token that worked works again, with any new password,
      at any time up to its expiration. */
  lemma ResetTokenReusable(users: seq<User>, resets: seq<PasswordReset>, session: Session, form: Form,
                           now: int, hashpw: string -> string, form2: Form, later: int)
    requires CompleteResetReply(users, resets, session, form, now, hashpw).Success?
    requires FormParam(form2, "password").Some?
    requires FormParam(form2, "token") == FormParam(form, "token")
    requires later <= TokenRows(resets, FormParam(form, "token").value)[0].expiration
    ensures var t := CompleteResetReply(users, resets, session, form, now, hashpw).value;
      var t2 := CompleteResetReply(ApplyReset(users, t), resets, session, form2, later, hashpw);
      t2.Success? && t2.value.index == t.index
  {
    var t := CompleteResetReply(users, resets, session, form, now, hashpw).value;
    var users2 := ApplyReset(users, t);
    var email := TokenRows(resets, FormParam(form, "token").value)[0].email;
    assert forall i :: 0 <= i < |users| ==> users2[i].email == users[i].email;
    var k := UserIndexByEmail(users2, email);
    assert k.Some? by {
      assert users2[t.index].email == email;
    }
  }

  /** Changing a password keeps every module's owner reference valid. */
  lemma OwnersExistAfterReset(users: seq<User>, modules: seq<Module>, t: ResetTarget)
    requires OwnersExist(users, modules) && t.index < |users|
    ensures OwnersExist(ApplyReset(users, t), modules)
  {
    var r := ApplyReset(users, t);
    forall m | m in modules ensures OwnerOf(r, m).Some? {
      var o := OwnerOf(users, m).value;
      var i :| 0 <= i < |users| && users[i] == o;
      assert r[i].id == o.id && r[i] in r;
    }
  }

  /** `completeReset` as it runs: the target's password is assigned on success, the reset rows
      are left alone, and any rejection rolls the transaction back. */
  method CompleteReset(db: Database, session: Session, form: Form, now: int, hashpw: string -> string)
    returns (res: Reply<ResetTarget>)
    modifies db`users
    ensures res == CompleteResetReply(old(db.users), db.resets, session, form, now, hashpw)
    ensures res.Success? ==> db.users == ApplyReset(old(db.users), res.value)
    ensures res.Reject? ==> db.users == old(db.users)
    ensures old(db.Valid()) ==> db.Valid()
  {
    res := CompleteResetReply(db.users, db.resets, session, form, now, hashpw);
    if res.Success? {
      if db.Valid() {
        OwnersExistAfterReset(db.users, db.modules, res.value);
      }
      db.users := ApplyReset(db.users, res.value);
    }
  }
}
