/** The unauthenticated account views: login, register and token refresh. */
module Accounts {
  import opened Base
  import opened Platform
  import opened NoteStore
  import opened Http
  import opened AuthGate

  /** Both credential fields are in the request body. */
  predicate HasCredentials(body: map<string, string>)
  {
    "username" in body && "password" in body
  }

  /** Both credential fields are present and neither is blank. */
  predicate Filled(body: map<string, string>)
  {
    HasCredentials(body) && body["username"] != "" && body["password"] != ""
  }

  /** `POST /rest/login`. Checks run in a fixed order (fields present, fields
      non-blank, account exists, password matches); each failure has its own
      message, a password bcrypt refuses to check escapes as an exception, and
      no path writes to the store. */
  function Login(cfg: Config, env: Env, st: State, body: map<string, string>): (r: Step)
    ensures r.state == st
    ensures !HasCredentials(body) ==> r.response == Reply(401, Message(FieldMissing))
    ensures HasCredentials(body) && !Filled(body) ==> r.response == Reply(401, Message(FieldBlank))
    ensures Filled(body) && body["username"] !in st.users ==>
      r.response == Reply(401, Message(UnknownUser(body["username"])))
    ensures Filled(body) && body["username"] in st.users
            && cfg.hasher.checkpw(body["password"], st.users[body["username"]].password) == Some(false) ==>
      r.response == Reply(401, Message(WrongPassword))
    ensures r.response.HasToken() <==>
      Filled(body) && body["username"] in st.users
      && cfg.hasher.checkpw(body["password"], st.users[body["username"]].password) == Some(true)
    ensures r.response.HasToken() ==>
      r.response == Reply(200, WithToken(LoginOk, Issue(cfg.codec, body["username"], env.now, LoginTtl)))
    ensures r.response.ServerError? <==>
      Filled(body) && body["username"] in st.users
      && cfg.hasher.checkpw(body["password"], st.users[body["username"]].password).None?
    ensures r.response.ServerError? ==> r.response.fault == PasswordRejected
    ensures r.response.Reply? ==> (r.response.Status() == 200 <==> r.response.HasToken())
  {
    if !HasCredentials(body) then Step(Reply(401, Message(FieldMissing)), st)
    else if !Filled(body) then Step(Reply(401, Message(FieldBlank)), st)
    else
      var name := body["username"];
      if name in st.users then
        match cfg.hasher.checkpw(body["password"], st.users[name].password)
        case None => Step(ServerError(PasswordRejected), st)
        case Some(true) => Step(Reply(200, WithToken(LoginOk, Issue(cfg.codec, name, env.now, LoginTtl))), st)
        case Some(false) => Step(Reply(401, Message(WrongPassword)), st)
      else Step(Reply(401, Message(UnknownUser(name))), st)
  }

  /** `POST /rest/register`. Same field checks as login; then a taken name is
      refused, and a fresh one gets exactly one new account holding a hash of
      the password and an empty wishlist, plus a 180-day token. A password
      bcrypt refuses to hash escapes as an exception before anything is stored. */
  function Register(cfg: Config, env: Env, st: State, body: map<string, string>): (r: Step)
    ensures !HasCredentials(body) ==> r == Step(Reply(401, Message(FieldMissing)), st)
    ensures HasCredentials(body) && !Filled(body) ==> r == Step(Reply(401, Message(FieldBlank)), st)
    ensures Filled(body) && body["username"] in st.users ==>
      r == Step(Reply(401, Message(UserExists(body["username"]))), st)
    ensures r.response.HasToken() <==>
      Filled(body) && body["username"] !in st.users && cfg.hasher.hashpw(body["password"], env.salt).Some?
    ensures Filled(body) && body["username"] !in st.users && cfg.hasher.hashpw(body["password"], env.salt).None? ==>
      r == Step(ServerError(PasswordRejected), st)
    ensures r.state != st <==> r.response.HasToken()
    ensures r.response.HasToken() ==>
      var name := body["username"];
      && r.response == Reply(200, WithToken(UserCreated(name), Issue(cfg.codec, name, env.now, RegisterTtl)))
      && r.state.notes == st.notes
      && r.state.users.Keys == st.users.Keys + {name}
      && |r.state.users| == |st.users| + 1
      && r.state.users[name] == User(name, cfg.hasher.hashpw(body["password"], env.salt).value, [])
      && (forall v :: v in st.users ==> r.state.users[v] == st.users[v])
  {
    if !HasCredentials(body) then Step(Reply(401, Message(FieldMissing)), st)
    else if !Filled(body) then Step(Reply(401, Message(FieldBlank)), st)
    else
      var name := body["username"];
      if name !in st.users then
        match cfg.hasher.hashpw(body["password"], env.salt)
        case None => Step(ServerError(PasswordRejected), st)
        case Some(hash) =>
          var account := User(name, hash, []);
          Step(Reply(200, WithToken(UserCreated(name), Issue(cfg.codec, name, env.now, RegisterTtl))),
               st.(users := st.users[name := account]))
      else Step(Reply(401, Message(UserExists(name))), st)
  }

  /** `POST /rest/refresh`. A new 360-day token, for whatever username the body
      names, is issued only when decoding the old token raised the expiry
      error. A bad signature is answered without a token (and without an error
      status); any other decoding error escapes the view, and a token that
      still decodes makes the view return nothing. */
  function Refresh(cfg: Config, env: Env, st: State, auth: Option<string>,
                   body: map<string, string>): (r: Step)
    ensures r.state == st
    ensures !Presented(auth) ==> r.response == Reply(401, Message(TokenMissing))
    ensures r.response.HasToken() <==>
      Presented(auth) && cfg.codec.decode(auth.value, env.now).Expired? && "username" in body
    ensures r.response.HasToken() ==>
      r.response == Reply(200, WithToken(RefreshOk, Issue(cfg.codec, body["username"], env.now, LoginTtl)))
    ensures Presented(auth) && cfg.codec.decode(auth.value, env.now).Expired? && "username" !in body ==>
      r.response == ServerError(KeyMissing("username"))
    ensures Presented(auth) && cfg.codec.decode(auth.value, env.now).BadSignature? ==>
      r.response == Reply(200, Message(RefreshBadSignature))
    ensures Presented(auth) && cfg.codec.decode(auth.value, env.now).OtherError? ==>
      r.response == ServerError(UncaughtDecodeError)
    ensures Presented(auth) && cfg.codec.decode(auth.value, env.now).Ok? ==>
      r.response == ServerError(NoReturnValue)
  {
    if !Presented(auth) then Step(Reply(401, Message(TokenMissing)), st)
    else match cfg.codec.decode(auth.value, env.now)
      case Expired =>
        if "username" in body then
          Step(Reply(200, WithToken(RefreshOk, Issue(cfg.codec, body["username"], env.now, LoginTtl))), st)
        else Step(ServerError(KeyMissing("username")), st)
      case BadSignature => Step(Reply(200, Message(RefreshBadSignature)), st)
      case OtherError => Step(ServerError(UncaughtDecodeError), st)
      case Ok(_) => Step(ServerError(NoReturnValue), st)
  }
}
