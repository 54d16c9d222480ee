/** The JSON responses the backend handlers send: a status code and a body
    whose constructor records which keys the body carries. */
module Http {
  import opened Records

  /** Why a handler's `catch` block answered 500; the exact `err.message`
      text is not modelled. */
  datatype Fault =
    | ValidationFailed   // a `required` validator rejected the document
    | DuplicateKey       // a unique index rejected the insert (E11000)
    | HashMissing        // bcrypt rejected an undefined hash

  datatype Body =
    | Message(message: string)                          // { message }
    | SignupCreated(message: string, trialEndsAt: int)  // { message, trialEndsAt }
    | Tokens(accessToken: Token, refreshToken: Token)   // { accessToken, refreshToken }
    | AccessToken(accessToken: Token)                   // { accessToken }
    | Activated(message: string, endsAt: int)           // { message, endsAt }
    | ServerError(fault: Fault)                         // { error: err.message }
    | Msg(msg: string)                                  // { msg }, the legacy routes
    | LegacyToken(token: Token)                         // { token }, the legacy routes
    | ServerErrorText                                   // the plain text "Server Error"

  datatype Response = Response(status: int, body: Body)
}
