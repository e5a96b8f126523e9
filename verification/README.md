# carnotes-api: request-handling model

A Dafny model of the request-handling logic of the carnotes REST API (`app.py`).
The service lets users register and log in with a username and password. It gives
out JWT session tokens, and behind a token gate it lists, creates, reads, replaces
and deletes notes stored in MongoDB.

Every view is a pure function from a request and a `State` to a `Step`: the
response plus the state it leaves behind. `State` holds the two collections:
- `users`: a map from username to account;
- `notes`: a sequence of documents in the collection's natural order.

The libraries are black boxes held in a `Config` value:
- `jwt.encode`/`jwt.decode` become a `TokenCodec`. Decoding ends in a
  `DecodeResult`: `Ok(subject)`, `Expired`, `BadSignature` or `OtherError`.
- `bcrypt.hashpw`/`bcrypt.checkpw`, applied to the UTF-8 encoding of the password, become a `Hasher`. Either can fail (`None`), standing for the exceptions the encoder or bcrypt raise on passwords they reject.
- `ObjectId(str)` becomes `parseId`.

The clock, the salt that `bcrypt.gensalt()` returns and the `_id` the driver
generates on insert are per-request inputs (`Env`). Times are whole seconds.

An uncaught Python exception, or a view that returns `None`, becomes
`ServerError(fault)`, which Flask answers with status 500.

The model follows the code as written, gaps included:
- GET and DELETE on a single note do not check who owns it.
- PUT stamps the caller as the note's `user`, and writes a `lastUpdated` stamp
  where creation wrote `lastEdited`.
- Refresh issues a token for whatever username the request body names.
- Refresh of a token that still decodes returns nothing, so the client gets a 500.
- A bad signature on refresh gets the reply "Invalid token!" with status 200.
- GET on an unknown or malformed id fails with a 500. DELETE and PUT on an
  unknown id reply "id does not exist" with status 200.
- The comment at `app.py:85` speaks of a 24-hour token. The code issues 360-day
  tokens on login and refresh, and 180-day tokens on register. The model follows
  the code.

`CodecSound` and `HasherSound` state what the JWT library and bcrypt are
assumed to guarantee:
- a token the codec signed decodes to its subject up to its `exp` second;
- a password that could be hashed matches every hash made from it.

They appear only as preconditions of the lemmas that relate several requests.

Files:
- `base.dfy`: the Option type.
- `json.dfy`: JSON payload values.
- `platform.dfy`: clock, TTLs, codec, hasher and configuration.
- `note_store.dfy`: documents, state, and the collection operations with their lemmas.
- `http.dfy`: responses and the source's messages.
- `auth_gate.dfy`: `token_required`.
- `accounts.dfy`: login, register and refresh.
- `notes.dfy`: the note views and routed endpoints.
- `api.dfy`: dispatch and the properties that span several requests.

## Model

| member | source | states |
|---|---|---|
| `AuthGate.Authorize` | app.py:36-46 | A missing or empty header gives "Token is missing!"/401. An expired token gives "Token is expired!"/401. Every other decode failure gives "Token is invalid!"/401. The request is admitted if and only if the header is present and decodes, and then for the decoded subject. |
| `AuthGate.TokenRequired` | app.py:26-50 | The wrapped view runs only when the token decodes, and then with the token's subject. Otherwise exactly the gate's reply ("Token is missing!", "Token is expired!" or "Token is invalid!", all 401) is returned and the store is untouched. |
| `Accounts.Login` | app.py:69-98 | Checks run in order: fields present, fields non-blank, account exists, password matches. Each failure has its own 401 message. A password bcrypt refuses to check escapes as an exception (500), and only then. A token is issued if and only if the account exists and the password check passes. That token carries the supplied username and expires 360 days from now. The store is never modified. |
| `Accounts.Register` | app.py:121-148 | Missing or blank fields and a taken name give their 401 messages and leave the store unchanged. A fresh name adds exactly one account `{username, hash of the password with this request's salt, empty wishlist}` and leaves the other accounts and the notes as they were. It returns a token for that name that expires 180 days from now. A password bcrypt refuses to hash escapes as an exception (500) before anything is stored. The store changes if and only if a token is issued. |
| `Accounts.Refresh` | app.py:102-117 | A token is issued if and only if the header is present, decoding raised the expiry error, and the body has a username. The new token is for the body's username and expires 360 days from now. A bad signature gives "Invalid token!" with no token. A missing header gives 401. Other decode errors escape the view. A token that still decodes yields no return value. The store is never modified. |
| `NoteStore.IndexOf` | app.py:188 | Finds the document a `{'_id': id}` filter selects: the first one carrying the id, or none when no document carries it. |
| `NoteStore.RemoveAt` | app.py:188 | Removing one document keeps every other document, in order. |
| `NoteStore.Owned` | app.py:157 | `find({"user": user})` yields exactly the stored documents whose `user` is the given one. |
| `NoteStore.OwnedSub` | app.py:157 | `find` yields each stored document at most as often as it is stored: the owner's listing is a sub-multiset of the collection. |
| `NoteStore.CollectOwned` | app.py:157-161 | The scan of `find({"user": user})` followed by the cursor loop collects exactly the owner's documents, in collection order. |
| `NoteStore.OwnedAppend` | app.py:157 | Filtering by owner distributes over concatenation of collections. |
| `NoteStore.AppendFresh` | app.py:177 | Inserting a document with an unused `_id` keeps ids unique, and the id then selects the new document. |
| `NoteStore.RemoveSelected` | app.py:188 | Deleting the document an id selects keeps ids unique and leaves no document with that id. |
| `NoteStore.ReplaceSelected` | app.py:211 | Replacing a document under its own `_id` keeps ids unique. |
| `NoteStore.RemoveAppended` | app.py:177-188 | Deleting by id a document that was just inserted restores the collection. |
| `Notes.Target` | app.py:195 | A path id selects a document only if it parses as an ObjectId and a document carries it. |
| `Notes.ListView` | app.py:155-162 | Lists exactly the stored notes whose `user` equals the token's subject, none more often than it is stored, with status 200, and changes nothing. |
| `Notes.CreateView` | app.py:163-179 | A missing title or items field raises a KeyError, title first, and changes nothing. Otherwise exactly one document `{title, items, lastEdited = now, user = caller}` is appended under the generated id and returned. All earlier documents are unchanged. A colliding id fails and changes nothing. |
| `Notes.DeleteView` | app.py:186-192 | A malformed or unknown id gives "id does not exist" and changes nothing. Otherwise the selected note is removed and returned, and every other note keeps its place. With unique ids, no note with that id remains. |
| `Notes.GetView` | app.py:194-197 | Replies if and only if the id selects a stored note, and then with a note carrying that id. A malformed id raises InvalidId. An unknown id fails on the missing result. Nothing changes. |
| `Notes.ReplaceView` | app.py:199-216 | Missing fields raise a KeyError first, then a malformed id raises InvalidId. An unknown id gives "id does not exist" and changes nothing. Otherwise the selected note is overwritten in place by `{title, items, lastUpdated = now, user = caller}` under the same id and returned. Every other note is unchanged. |
| `Notes.ListNotes` | app.py:152-162 | Behind the gate: an admitted caller gets the list view's 200 reply of exactly their own notes, none repeated beyond its stored copies. Anyone else gets the gate's reply. Nothing changes. |
| `Notes.CreateNote` | app.py:152-179 | Behind the gate: the create view runs for the token's subject only when the token decodes. Otherwise the gate's reply is returned and the store is unchanged. |
| `Notes.DeleteNote` | app.py:183-192 | Behind the gate: the delete view runs only when the token decodes. Otherwise the gate's reply is returned and the store is unchanged. |
| `Notes.GetNote` | app.py:183-197 | Behind the gate: the get view runs only when the token decodes. Nothing changes. |
| `Notes.ReplaceNote` | app.py:183-216 | Behind the gate: the replace view runs for the token's subject only when the token decodes. Otherwise the gate's reply is returned and the store is unchanged. |
| `Api.Handle` | app.py:68-216 | Login, refresh and both GETs never change the store. Only register touches the accounts. Every request refused with 401 leaves the store as it was. |
| `Api.HandlePreservesValid` | app.py:121-216 | Every request keeps accounts filed under their own usernames and note ids unique: create relies on a fresh id, delete and replace on acting on the one document the id selects. |
| `Api.IssuedTokenAdmitted` | app.py:36-48 | A token the service issued passes the gate for its subject until its expiry second. After that the gate answers "Token is expired!". |
| `Api.LoginThenListNotes` | app.py:84-90 | For 360 days the login token gets a 200 listing of exactly the caller's own notes. |
| `Api.ExpiredTokenRefreshes` | app.py:104-113 | After expiry the gate refuses the login token, and refresh trades it for a token that the gate admits for the username the refresh body names. |
| `Api.LiveTokenNotRefreshed` | app.py:104-117 | Refreshing a login token that is still valid yields no reply. |
| `Api.RegisterThenLogin` | app.py:134-142 | The credentials that registered an account log in with it and receive a 360-day token. |
| `Api.RegisterTwice` | app.py:131-144 | A second registration under a taken name, with any password, is refused with "already exists"/401 and stores nothing. |
| `Api.CreateThenList` | app.py:155-177 | After a create, the author's listing gains exactly the new note at its end, and every other user's listing is unchanged. |
| `Api.CreateThenGet` | app.py:194-197 | A created note is what a get by its id returns. |
| `Api.CreateThenDelete` | app.py:186-190 | Deleting a note right after creating it returns the note and restores the previous store. |
| `Api.DeleteThenList` | app.py:186-192 | After a delete, every user's listing is the listing of the notes before the deleted one followed by that of the notes after it. So the note leaves its owner's listing, which becomes one entry shorter, and every other user's listing is unchanged. |
| `Api.DeleteThenAgain` | app.py:186-197 | After a delete, deleting the same id reports "id does not exist" and getting it fails. |
| `Api.ReplaceIdempotent` | app.py:206-216 | Replacing twice with the same payload at the same moment equals replacing once. |
| `Api.AnyCallerReadsAndDeletes` | app.py:183-197 | Any admitted caller, whoever owns the note, gets it and deletes it by id. |
| `Api.ReplaceTransfersOwnership` | app.py:202-211 | A replace makes the caller the note's `user`. When someone else owned it, the note leaves the former owner's listing. |
| `Api.AliceAndBob` | app.py:121-197 | When bcrypt accepts alice's password, alice registers and files a note. bob, with any valid token, reads it. alice deletes it, and a later get fails. |

## Left out

- `index`, `privacy` and `terms` are left out: they only render static templates.
- `create_app`, the environment variables and the `MongoClient` setup are left out: they are process configuration.
- Flask's 405 for methods a route does not accept is left out: it is routing.
- The codec and the store follow PyJWT 1.x and pymongo 3.x. In those versions `jwt.encode` returns bytes, `jwt.decode` accepts a call without `algorithms`, and `Collection.insert` exists. Under PyJWT 2 or pymongo 4 those lines raise instead, and the model does not cover that.
- JWT signing and bcrypt hashing are black-box functions, because they are foreign cryptographic libraries. Their guarantees are the assumptions `CodecSound` and `HasherSound`.
- JSON numbers are integers: a floating-point number in a note's `title` or `items` cannot be represented.
- `datetime.now()` and `strftime("%m/%d/%Y %H:%M:%S")` become an abstract clock value. The model does not distinguish local time (note stamps) from UTC (token expiry).
- `ObjectId` parsing is the abstract `parseId`. The conversion of `_id` to a string in replies is not modelled.
- Request bodies are JSON objects. The account views read string-valued fields only. A non-object body, a missing JSON body, and non-string `username`/`password` values are not modelled: they would need MongoDB's query semantics for non-string filters.
- A token that decodes without a `user` claim is not modelled, and neither is `str()` of a non-string claim. `Ok` always carries a subject.
- The note views decode the header a second time to get the caller. The model hands them the subject the gate decoded. At one clock reading the two decodes agree.
- The find-then-insert race in register is not modelled: the model is sequential.
- A generated `_id` that collides with a stored one becomes a `DuplicateKey` failure. The driver's id generation is not modelled.
- Notes.ListView: states which documents are listed and that none is repeated beyond its stored copies, not their order. The order is the collection's, as `NoteStore.Owned` is defined and `NoteStore.CollectOwned` computes it.
