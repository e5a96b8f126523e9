/** What a view hands back to Flask. */
module Http {
  import opened NoteStore

  /** JSON bodies the views build with `jsonify` (or return as a dict). */
  datatype Body =
    | Message(text: string)
    | WithToken(text: string, token: string)
    | NoteList(notes: seq<Doc>)
    | OneNote(doc: Doc)

  /** Why a view ended without a reply of its own; Flask answers all of these
      with a 500 Internal Server Error. */
  datatype Fault =
    | KeyMissing(key: string)   // KeyError from reading an absent body field
    | NoneSubscript             // TypeError from subscripting a lookup that found nothing
    | InvalidObjectId           // bson.errors.InvalidId from a malformed path id
    | DuplicateKey              // the insert collided with an existing `_id`
    | UncaughtDecodeError       // a JWT error the refresh view does not catch
    | NoReturnValue             // the view fell off its end and returned None
    | PasswordRejected          // encoding or bcrypt raised on the password

  datatype Response =
    | Reply(status: nat, body: Body)
    | ServerError(fault: Fault)
  {
    /** The status code the client sees. */
    function Status(): nat
    {
      if Reply? then status else 500
    }

    predicate HasToken()
    {
      Reply? && body.WithToken?
    }
  }

  /** A response together with the store it leaves behind. */
  datatype Step = Step(response: Response, state: State)

  const TokenMissing := "Token is missing!"
  const TokenExpired := "Token is expired!"
  const TokenInvalid := "Token is invalid!"
  const FieldMissing := "Username or password field is missing from request!"
  const FieldBlank := "Username or password is blank!"
  const WrongPassword := "Incorrect password! Please try again."
  const LoginOk := "Login succesful!"
  const RefreshOk := "Refresh succesful!"
  const RefreshBadSignature := "Invalid token!"
  const IdMissing := "id does not exist"

  function UnknownUser(name: string): string
  {
    "User '" + name + "' does not exist!"
  }

  function UserExists(name: string): string
  {
    "User '" + name + "' already exists!"
  }

  function UserCreated(name: string): string
  {
    "New user '" + name + "' created!"
  }
}
