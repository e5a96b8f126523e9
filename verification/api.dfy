/** The routed API as one state machine over the store, with the properties
    that relate several requests. */
module Api {
  import opened Base
  import opened Json
  import opened Platform
  import opened NoteStore
  import opened Http
  import opened AuthGate
  import opened Accounts
  import opened Notes

  /** One request to one of the JSON routes. */
  datatype Call =
    | PostLogin(credentials: map<string, string>)
    | PostRegister(credentials: map<string, string>)
    | PostRefresh(auth: Option<string>, fields: map<string, string>)
    | GetNotes(auth: Option<string>)
    | PostNotes(auth: Option<string>, body: map<string, Json>)
    | DeleteNoteById(auth: Option<string>, noteId: string)
    | GetNoteById(auth: Option<string>, noteId: string)
    | PutNoteById(auth: Option<string>, noteId: string, body: map<string, Json>)

  /** The calls that only read the store. */
  predicate ReadOnly(c: Call)
  {
    c.PostLogin? || c.PostRefresh? || c.GetNotes? || c.GetNoteById?
  }

  /** Dispatch a call to its view. Read-only calls leave the store as it was,
      only register touches the accounts, and a request refused with 401
      changes nothing. */
  function Handle(cfg: Config, env: Env, st: State, c: Call): (r: Step)
    ensures ReadOnly(c) ==> r.state == st
    ensures !c.PostRegister? ==> r.state.users == st.users
    ensures r.response.Status() == 401 ==> r.state == st
  {
    match c
    case PostLogin(b) => Login(cfg, env, st, b)
    case PostRegister(b) => Register(cfg, env, st, b)
    case PostRefresh(a, b) => Refresh(cfg, env, st, a, b)
    case GetNotes(a) => ListNotes(cfg, env, st, a)
    case PostNotes(a, b) => CreateNote(cfg, env, st, a, b)
    case DeleteNoteById(a, n) => DeleteNote(cfg, env, st, a, n)
    case GetNoteById(a, n) => GetNote(cfg, env, st, a, n)
    case PutNoteById(a, n, b) => ReplaceNote(cfg, env, st, a, n, b)
  }

  /** Every call keeps the store well formed: accounts filed under their own
      names, note ids unique. */
  lemma HandlePreservesValid(cfg: Config, env: Env, st: State, c: Call)
    requires Valid(st)
    ensures Valid(Handle(cfg, env, st, c).state)
  {
    match c
    case PostNotes(a, b) =>
      if Presented(a) && cfg.codec.decode(a.value, env.now).Ok? && "title" in b && "items" in b
         && IndexOf(st.notes, env.newId).None? {
        var user := cfg.codec.decode(a.value, env.now).subject;
        AppendFresh(st.notes, Doc(env.newId, Note(b["title"], b["items"], LastEdited(env.now), user)));
      }
    case DeleteNoteById(a, n) =>
      if Presented(a) && cfg.codec.decode(a.value, env.now).Ok? && Target(cfg, st, n).Some? {
        RemoveSelected(st.notes, cfg.parseId(n).value);
      }
    case PutNoteById(a, n, b) =>
      if Presented(a) && cfg.codec.decode(a.value, env.now).Ok? && Target(cfg, st, n).Some?
         && "title" in b && "items" in b {
        var user := cfg.codec.decode(a.value, env.now).subject;
        ReplaceSelected(st.notes, Target(cfg, st, n).value,
                        Note(b["title"], b["items"], LastUpdated(env.now), user));
      }
    case _ =>
  }

  /** A token the service issued is let through by the gate, for the subject
      it was issued to, until its expiry second; after that the gate answers
      "Token is expired!". */
  lemma IssuedTokenAdmitted(codec: TokenCodec, user: string, issuedAt: Time, ttl: nat, now: Time)
    requires CodecSound(codec)
    ensures now <= issuedAt + ttl ==>
      Authorize(codec, now, Some(Issue(codec, user, issuedAt, ttl))) == Admit(user)
    ensures now > issuedAt + ttl ==>
      Authorize(codec, now, Some(Issue(codec, user, issuedAt, ttl))) == Reject(Reply(401, Message(TokenExpired)))
  {
  }

  /** The token login hands out opens the caller's own note list for 360 days. */
  lemma LoginThenListNotes(cfg: Config, env: Env, st: State, body: map<string, string>,
                           later: Env, st2: State)
    requires CodecSound(cfg.codec)
    requires Login(cfg, env, st, body).response.HasToken()
    requires later.now <= env.now + LoginTtl
    ensures var r := ListNotes(cfg, later, st2, Some(Login(cfg, env, st, body).response.body.token));
      && r.response.Reply? && r.response.status == 200 && r.response.body.NoteList?
      && forall d :: d in r.response.body.notes <==> d in st2.notes && d.note.user == body["username"]
  {
  }

  /** Once a login token has expired, the gate refuses it and refresh trades
      it for a new token, admitted for the username the refresh body names
      (which need not be the old token's subject). */
  lemma ExpiredTokenRefreshes(cfg: Config, env: Env, st: State, body: map<string, string>,
                              later: Env, st2: State, fields: map<string, string>)
    requires CodecSound(cfg.codec)
    requires Login(cfg, env, st, body).response.HasToken()
    requires later.now > env.now + LoginTtl
    requires "username" in fields
    ensures var stale := Login(cfg, env, st, body).response.body.token;
      && ListNotes(cfg, later, st2, Some(stale)).response == Reply(401, Message(TokenExpired))
      && var r := Refresh(cfg, later, st2, Some(stale), fields);
      && r.response.HasToken()
      && Authorize(cfg.codec, later.now, Some(r.response.body.token)) == Admit(fields["username"])
  {
  }

  /** Refresh of a login token that is still valid yields no reply at all. */
  lemma LiveTokenNotRefreshed(cfg: Config, env: Env, st: State, body: map<string, string>,
                              later: Env, st2: State, fields: map<string, string>)
    requires CodecSound(cfg.codec)
    requires Login(cfg, env, st, body).response.HasToken()
    requires later.now <= env.now + LoginTtl
    ensures Refresh(cfg, later, st2, Some(Login(cfg, env, st, body).response.body.token), fields).response
            == ServerError(NoReturnValue)
  {
  }

  /** Credentials that registered an account log in with it. */
  lemma RegisterThenLogin(cfg: Config, env: Env, st: State, body: map<string, string>, later: Env)
    requires HasherSound(cfg.hasher)
    requires Register(cfg, env, st, body).response.HasToken()
    ensures Login(cfg, later, Register(cfg, env, st, body).state, body).response
            == Reply(200, WithToken(LoginOk, Issue(cfg.codec, body["username"], later.now, LoginTtl)))
  {
  }

  /** A second registration under a taken name, whatever its password, is
      refused and stores nothing. */
  lemma RegisterTwice(cfg: Config, env: Env, st: State, body: map<string, string>,
                      later: Env, again: map<string, string>)
    requires Register(cfg, env, st, body).response.HasToken()
    requires Filled(again) && again["username"] == body["username"]
    ensures var st1 := Register(cfg, env, st, body).state;
      Register(cfg, later, st1, again) == Step(Reply(401, Message(UserExists(body["username"]))), st1)
  {
  }

  /** After a note is created, its author's listing gains exactly that note at
      the end and everybody else's listing is unchanged. */
  lemma CreateThenList(env: Env, st: State, user: string, body: map<string, Json>, viewer: string)
    requires CreateView(env, st, user, body).state != st
    ensures var r := CreateView(env, st, user, body);
      Owned(r.state.notes, viewer)
      == if viewer == user then Owned(st.notes, viewer) + [r.response.body.doc] else Owned(st.notes, viewer)
  {
    var d := CreateView(env, st, user, body).response.body.doc;
    OwnedAppend(st.notes, [d], viewer);
    assert Owned([d], viewer) == if viewer == user then [d] else [];
  }

  /** A created note is what a get by its id then returns. */
  lemma CreateThenGet(cfg: Config, env: Env, st: State, user: string, body: map<string, Json>,
                      noteId: string)
    requires CreateView(env, st, user, body).state != st
    requires cfg.parseId(noteId) == Some(env.newId)
    ensures var r := CreateView(env, st, user, body);
      GetView(cfg, r.state, noteId) == Step(r.response, r.state)
  {
  }

  /** Deleting a note right after creating it returns it and restores the store. */
  lemma CreateThenDelete(cfg: Config, env: Env, st: State, user: string, body: map<string, Json>,
                         noteId: string)
    requires CreateView(env, st, user, body).state != st
    requires cfg.parseId(noteId) == Some(env.newId)
    ensures var r := CreateView(env, st, user, body);
      DeleteView(cfg, r.state, noteId) == Step(r.response, st)
  {
  }

  /** A delete takes the note out of its owner's listing, one entry shorter,
      and leaves every other user's listing as it was. */
  lemma DeleteThenList(cfg: Config, st: State, noteId: string, viewer: string)
    requires Target(cfg, st, noteId).Some?
    ensures var i := Target(cfg, st, noteId).value;
      var st1 := DeleteView(cfg, st, noteId).state;
      && Owned(st1.notes, viewer) == Owned(st.notes[..i], viewer) + Owned(st.notes[i + 1..], viewer)
      && (viewer != st.notes[i].note.user ==> Owned(st1.notes, viewer) == Owned(st.notes, viewer))
      && (viewer == st.notes[i].note.user ==> |Owned(st1.notes, viewer)| == |Owned(st.notes, viewer)| - 1)
  {
    var i := Target(cfg, st, noteId).value;
    var s := st.notes;
    assert s == s[..i] + ([s[i]] + s[i + 1..]);
    OwnedAppend(s[..i], [s[i]] + s[i + 1..], viewer);
    OwnedAppend([s[i]], s[i + 1..], viewer);
    OwnedAppend(s[..i], s[i + 1..], viewer);
    assert RemoveAt(s, i) == s[..i] + s[i + 1..];
  }

  /** Once a note is deleted, deleting it again reports "id does not exist"
      and getting it fails. */
  lemma DeleteThenAgain(cfg: Config, st: State, noteId: string)
    requires UniqueIds(st.notes)
    requires Target(cfg, st, noteId).Some?
    ensures var st1 := DeleteView(cfg, st, noteId).state;
      && DeleteView(cfg, st1, noteId) == Step(Reply(200, Message(IdMissing)), st1)
      && GetView(cfg, st1, noteId).response == ServerError(NoneSubscript)
  {
  }

  /** Replacing twice with the same payload at the same moment is the same as
      replacing once. */
  lemma ReplaceIdempotent(cfg: Config, env: Env, st: State, user: string, noteId: string,
                          body: map<string, Json>)
    ensures var r := ReplaceView(cfg, env, st, user, noteId, body);
      ReplaceView(cfg, env, r.state, user, noteId, body) == r
  {
  }

  /** As written, the single-note views never compare the note's owner with
      the caller: any admitted caller gets and deletes any note by id. */
  lemma AnyCallerReadsAndDeletes(cfg: Config, env: Env, st: State, auth: Option<string>,
                                 noteId: string)
    requires Presented(auth) && cfg.codec.decode(auth.value, env.now).Ok?
    requires Target(cfg, st, noteId).Some?
    ensures var doc := st.notes[Target(cfg, st, noteId).value];
      && GetNote(cfg, env, st, auth, noteId).response == Reply(200, OneNote(doc))
      && DeleteNote(cfg, env, st, auth, noteId).response == Reply(200, OneNote(doc))
      && |DeleteNote(cfg, env, st, auth, noteId).state.notes| == |st.notes| - 1
  {
  }

  /** As written, replace stamps the caller as the note's `user`: a note
      replaced by someone other than its owner leaves the owner's listing. */
  lemma ReplaceTransfersOwnership(cfg: Config, env: Env, st: State, caller: string,
                                  noteId: string, body: map<string, Json>)
    requires UniqueIds(st.notes)
    requires "title" in body && "items" in body
    requires Target(cfg, st, noteId).Some?
    ensures var i := Target(cfg, st, noteId).value;
      var st1 := ReplaceView(cfg, env, st, caller, noteId, body).state;
      && st1.notes[i].note.user == caller
      && st1.notes[i] in Owned(st1.notes, caller)
      && (st.notes[i].note.user != caller ==>
            forall d :: d in Owned(st1.notes, st.notes[i].note.user) ==> d.id != st.notes[i].id)
  {
  }

  /** A two-user session: alice registers and files a note; bob, holding any
      valid token, reads it; alice deletes it; after that it is gone. */
  lemma AliceAndBob(cfg: Config, t: Time, salt: Salt, id: Id, bobToken: string)
    requires CodecSound(cfg.codec)
    requires cfg.parseId("n1") == Some(id)
    requires bobToken != "" && cfg.codec.decode(bobToken, t) == Ok("bob")
    requires cfg.hasher.hashpw("pw123", salt).Some?
    ensures
      var env := Env(t, salt, id);
      var s1 := Register(cfg, env, State(map[], []), map["username" := "alice", "password" := "pw123"]);
      var alice := Some(s1.response.body.token);
      var s2 := CreateNote(cfg, env, s1.state, alice,
                           map["title" := JString("Groceries"), "items" := JArray([JString("milk")])]);
      var doc := Doc(id, Note(JString("Groceries"), JArray([JString("milk")]), LastEdited(t), "alice"));
      var s3 := GetNote(cfg, env, s2.state, Some(bobToken), "n1");
      var s4 := DeleteNote(cfg, env, s3.state, alice, "n1");
      && s1.response.HasToken()
      && s2.response == Reply(200, OneNote(doc))
      && s3.response == Reply(200, OneNote(doc))
      && s4.response == Reply(200, OneNote(doc))
      && s4.state.notes == []
      && GetNote(cfg, env, s4.state, alice, "n1").response == ServerError(NoneSubscript)
  {
  }
}
