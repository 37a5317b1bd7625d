/** The media service's `authenticateRequest`: the caller's identity is the
    `x-user-id` header the gateway sets, taken verbatim; a missing or empty
    header is refused with 401. */
module MediaAuth {
  import opened Common

  /** Exactly one of the two happens: a 401 is sent, or `next()` runs with
      `req.user = { userId }`. */
  datatype Gate = Unauthorized | Next(userId: string)

  function AuthenticateRequest(userIdHeader: Option<string>): (g: Gate)
    ensures g.Unauthorized? <==> userIdHeader.None? || userIdHeader.value == ""
    ensures g.Next? ==> Some(g.userId) == userIdHeader
  {
    if userIdHeader.None? || userIdHeader.value == "" then Unauthorized
    else Next(userIdHeader.value)
  }

  /** The header is not validated or transformed: every non-empty value, of
      any shape, becomes the user id as it is. */
  lemma AnyNonEmptyHeaderAccepted(value: string)
    requires value != ""
    ensures AuthenticateRequest(Some(value)) == Next(value)
  {
  }
}
