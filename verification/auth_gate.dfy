/** The `token_required` decorator: classify the Authorization header before
    the wrapped view may run. */
module AuthGate {
  import opened Base
  import opened Platform
  import opened NoteStore
  import opened Http

  /** The header is sent and is not the empty string. */
  predicate Presented(auth: Option<string>)
  {
    auth.Some? && auth.value != ""
  }

  /** The gate either lets the request through for a subject or answers it. */
  datatype Admission = Admit(subject: string) | Reject(response: Response)

  function Authorize(codec: TokenCodec, now: Time, auth: Option<string>): (a: Admission)
    ensures !Presented(auth) ==> a == Reject(Reply(401, Message(TokenMissing)))
    ensures Presented(auth) && codec.decode(auth.value, now).Expired? ==>
      a == Reject(Reply(401, Message(TokenExpired)))
    ensures Presented(auth) && (codec.decode(auth.value, now).BadSignature? || codec.decode(auth.value, now).OtherError?) ==>
      a == Reject(Reply(401, Message(TokenInvalid)))
    ensures a.Admit? <==> Presented(auth) && codec.decode(auth.value, now).Ok?
    ensures a.Admit? ==> codec.decode(auth.value, now) == Ok(a.subject)
    ensures a.Reject? ==> a.response.Status() == 401
  {
    if !Presented(auth) then Reject(Reply(401, Message(TokenMissing)))
    else match codec.decode(auth.value, now)
      case Expired => Reject(Reply(401, Message(TokenExpired)))
      case Ok(subject) => Admit(subject)
      case _ => Reject(Reply(401, Message(TokenInvalid)))
  }

  /** A view wrapped by the gate. The view is handed the token's subject,
      which the source's views recover by decoding the same header again. */
  function TokenRequired(codec: TokenCodec, now: Time, auth: Option<string>, st: State,
                         view: string -> Step): (r: Step)
    ensures !Presented(auth) ==> r == Step(Reply(401, Message(TokenMissing)), st)
    ensures Presented(auth) && !codec.decode(auth.value, now).Ok? ==>
      r.state == st && r.response.Status() == 401
    ensures !(Presented(auth) && codec.decode(auth.value, now).Ok?) ==>
      r == Step(Authorize(codec, now, auth).response, st)
    ensures Presented(auth) && codec.decode(auth.value, now).Ok? ==>
      r == view(codec.decode(auth.value, now).subject)
  {
    match Authorize(codec, now, auth)
    case Reject(resp) => Step(resp, st)
    case Admit(subject) => view(subject)
  }
}
