/** The note views, each behind the token gate: list and create on
    `/rest/notes`, and delete, get and replace on `/rest/notes/<note_id>`. */
module Notes {
  import opened Base
  import opened Json
  import opened Platform
  import opened NoteStore
  import opened Http
  import opened AuthGate

  /** Position of the document a path id selects, if the id parses and a
      document carries it. */
  function Target(cfg: Config, st: State, noteId: string): (r: Option<nat>)
    ensures r.Some? ==> cfg.parseId(noteId).Some? && r.value < |st.notes|
                        && st.notes[r.value].id == cfg.parseId(noteId).value
    ensures r.None? && cfg.parseId(noteId).Some? ==>
      forall j :: 0 <= j < |st.notes| ==> st.notes[j].id != cfg.parseId(noteId).value
  {
    match cfg.parseId(noteId)
    case None => None
    case Some(id) => IndexOf(st.notes, id)
  }

  /** `GET /rest/notes` once admitted: exactly the caller's notes. */
  function ListView(st: State, user: string): (r: Step)
    ensures r.state == st
    ensures r.response.Reply? && r.response.status == 200 && r.response.body.NoteList?
    ensures forall d :: d in r.response.body.notes <==> d in st.notes && d.note.user == user
    ensures multiset(r.response.body.notes) <= multiset(st.notes)
  {
    OwnedSub(st.notes, user);
    Step(Reply(200, NoteList(Owned(st.notes, user))), st)
  }

  /** `POST /rest/notes` once admitted: append one document carrying the body's
      title and items, a `lastEdited` stamp and the caller as `user`. */
  function CreateView(env: Env, st: State, user: string, body: map<string, Json>): (r: Step)
    ensures "title" !in body ==> r == Step(ServerError(KeyMissing("title")), st)
    ensures "title" in body && "items" !in body ==> r == Step(ServerError(KeyMissing("items")), st)
    ensures r.state.users == st.users
    ensures r.state != st <==> "title" in body && "items" in body && IndexOf(st.notes, env.newId).None?
    ensures r.state != st ==>
      var d := Doc(env.newId, Note(body["title"], body["items"], LastEdited(env.now), user));
      && r.state.notes == st.notes + [d]
      && r.response == Reply(200, OneNote(d))
      && IndexOf(r.state.notes, env.newId) == Some(|st.notes|)
    ensures "title" in body && "items" in body && IndexOf(st.notes, env.newId).Some? ==>
      r.response == ServerError(DuplicateKey)
  {
    if "title" !in body then Step(ServerError(KeyMissing("title")), st)
    else if "items" !in body then Step(ServerError(KeyMissing("items")), st)
    else if IndexOf(st.notes, env.newId).Some? then Step(ServerError(DuplicateKey), st)
    else
      var d := Doc(env.newId, Note(body["title"], body["items"], LastEdited(env.now), user));
      RemoveAppended(st.notes, d);
      Step(Reply(200, OneNote(d)), st.(notes := st.notes + [d]))
  }

  /** `DELETE /rest/notes/<note_id>` once admitted. Whoever the caller is, the
      selected document is removed and returned; a malformed or unknown id is
      reported as "id does not exist" and changes nothing. */
  function DeleteView(cfg: Config, st: State, noteId: string): (r: Step)
    ensures r.state.users == st.users
    ensures Target(cfg, st, noteId).None? ==> r == Step(Reply(200, Message(IdMissing)), st)
    ensures Target(cfg, st, noteId).Some? ==>
      var i := Target(cfg, st, noteId).value;
      && r.response == Reply(200, OneNote(st.notes[i]))
      && |r.state.notes| == |st.notes| - 1
      && (forall j :: 0 <= j < i ==> r.state.notes[j] == st.notes[j])
      && (forall j :: i <= j < |r.state.notes| ==> r.state.notes[j] == st.notes[j + 1])
    ensures UniqueIds(st.notes) && cfg.parseId(noteId).Some? ==>
      IndexOf(r.state.notes, cfg.parseId(noteId).value).None?
  {
    match Target(cfg, st, noteId)
    case None => Step(Reply(200, Message(IdMissing)), st)
    case Some(i) =>
      Step(Reply(200, OneNote(st.notes[i])), st.(notes := RemoveAt(st.notes, i)))
  }

  /** `GET /rest/notes/<note_id>` once admitted. Whoever the caller is, the
      selected document is returned; a malformed id raises `InvalidId` and an
      unknown one fails on the missing lookup result. */
  function GetView(cfg: Config, st: State, noteId: string): (r: Step)
    ensures r.state == st
    ensures cfg.parseId(noteId).None? ==> r.response == ServerError(InvalidObjectId)
    ensures cfg.parseId(noteId).Some? && Target(cfg, st, noteId).None? ==>
      r.response == ServerError(NoneSubscript)
    ensures r.response.Reply? <==> Target(cfg, st, noteId).Some?
    ensures r.response.Reply? ==>
      && r.response.status == 200 && r.response.body.OneNote?
      && r.response.body.doc in st.notes
      && r.response.body.doc.id == cfg.parseId(noteId).value
  {
    match cfg.parseId(noteId)
    case None => Step(ServerError(InvalidObjectId), st)
    case Some(id) =>
      match IndexOf(st.notes, id)
      case None => Step(ServerError(NoneSubscript), st)
      case Some(i) => Step(Reply(200, OneNote(st.notes[i])), st)
  }

  /** `PUT /rest/notes/<note_id>` once admitted. The selected document is
      overwritten in place by `{title, items, lastUpdated, user = caller}`,
      whoever owned it before; an unknown id is reported as "id does not
      exist" and changes nothing. */
  function ReplaceView(cfg: Config, env: Env, st: State, user: string, noteId: string,
                       body: map<string, Json>): (r: Step)
    ensures "title" !in body ==> r == Step(ServerError(KeyMissing("title")), st)
    ensures "title" in body && "items" !in body ==> r == Step(ServerError(KeyMissing("items")), st)
    ensures "title" in body && "items" in body && cfg.parseId(noteId).None? ==>
      r == Step(ServerError(InvalidObjectId), st)
    ensures "title" in body && "items" in body && cfg.parseId(noteId).Some?
            && Target(cfg, st, noteId).None? ==>
      r == Step(Reply(200, Message(IdMissing)), st)
    ensures r.state.users == st.users
    ensures |r.state.notes| == |st.notes|
    ensures "title" in body && "items" in body && Target(cfg, st, noteId).Some? ==>
      var i := Target(cfg, st, noteId).value;
      var d := Doc(st.notes[i].id, Note(body["title"], body["items"], LastUpdated(env.now), user));
      && r.response == Reply(200, OneNote(d))
      && r.state.notes[i] == d
      && (forall j :: 0 <= j < |st.notes| && j != i ==> r.state.notes[j] == st.notes[j])
  {
    if "title" !in body then Step(ServerError(KeyMissing("title")), st)
    else if "items" !in body then Step(ServerError(KeyMissing("items")), st)
    else match cfg.parseId(noteId)
      case None => Step(ServerError(InvalidObjectId), st)
      case Some(id) =>
        match IndexOf(st.notes, id)
        case None => Step(Reply(200, Message(IdMissing)), st)
        case Some(i) =>
          var d := Doc(id, Note(body["title"], body["items"], LastUpdated(env.now), user));
          Step(Reply(200, OneNote(d)), st.(notes := st.notes[i := d]))
  }

  /** The routed endpoints: each view behind `token_required`. */

  function ListNotes(cfg: Config, env: Env, st: State, auth: Option<string>): (r: Step)
    ensures r.state == st
    ensures Presented(auth) && cfg.codec.decode(auth.value, env.now).Ok? ==>
      var user := cfg.codec.decode(auth.value, env.now).subject;
      && r.response.Reply? && r.response.body.NoteList?
      && (forall d :: d in r.response.body.notes <==> d in st.notes && d.note.user == user)
      && multiset(r.response.body.notes) <= multiset(st.notes)
    ensures Presented(auth) && cfg.codec.decode(auth.value, env.now).Ok? ==>
      r == ListView(st, cfg.codec.decode(auth.value, env.now).subject)
    ensures !(Presented(auth) && cfg.codec.decode(auth.value, env.now).Ok?) ==>
      r.response == Authorize(cfg.codec, env.now, auth).response
  {
    TokenRequired(cfg.codec, env.now, auth, st, user => ListView(st, user))
  }

  function CreateNote(cfg: Config, env: Env, st: State, auth: Option<string>,
                      body: map<string, Json>): (r: Step)
    ensures !(Presented(auth) && cfg.codec.decode(auth.value, env.now).Ok?) ==>
      r == Step(Authorize(cfg.codec, env.now, auth).response, st)
    ensures Presented(auth) && cfg.codec.decode(auth.value, env.now).Ok? ==>
      r == CreateView(env, st, cfg.codec.decode(auth.value, env.now).subject, body)
  {
    TokenRequired(cfg.codec, env.now, auth, st, user => CreateView(env, st, user, body))
  }

  function DeleteNote(cfg: Config, env: Env, st: State, auth: Option<string>,
                      noteId: string): (r: Step)
    ensures !(Presented(auth) && cfg.codec.decode(auth.value, env.now).Ok?) ==>
      r == Step(Authorize(cfg.codec, env.now, auth).response, st)
    ensures Presented(auth) && cfg.codec.decode(auth.value, env.now).Ok? ==>
      r == DeleteView(cfg, st, noteId)
  {
    TokenRequired(cfg.codec, env.now, auth, st, user => DeleteView(cfg, st, noteId))
  }

  function GetNote(cfg: Config, env: Env, st: State, auth: Option<string>,
                   noteId: string): (r: Step)
    ensures r.state == st
    ensures !(Presented(auth) && cfg.codec.decode(auth.value, env.now).Ok?) ==>
      r.response == Authorize(cfg.codec, env.now, auth).response
    ensures Presented(auth) && cfg.codec.decode(auth.value, env.now).Ok? ==>
      r == GetView(cfg, st, noteId)
  {
    TokenRequired(cfg.codec, env.now, auth, st, user => GetView(cfg, st, noteId))
  }

  function ReplaceNote(cfg: Config, env: Env, st: State, auth: Option<string>,
                       noteId: string, body: map<string, Json>): (r: Step)
    ensures !(Presented(auth) && cfg.codec.decode(auth.value, env.now).Ok?) ==>
      r == Step(Authorize(cfg.codec, env.now, auth).response, st)
    ensures Presented(auth) && cfg.codec.decode(auth.value, env.now).Ok? ==>
      r == ReplaceView(cfg, env, st, cfg.codec.decode(auth.value, env.now).subject, noteId, body)
  {
    TokenRequired(cfg.codec, env.now, auth, st, user => ReplaceView(cfg, env, st, user, noteId, body))
  }
}
