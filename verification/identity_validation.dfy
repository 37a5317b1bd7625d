/** The identity service's request schemas. Registration takes exactly
    `username` (3 to 50 UTF-16 code units), `email` and `password` (at least
    6 units, no upper bound); login takes exactly `email` and `password`
    under the same rules. Joi's e-mail grammar is the parameter `isEmail`. */
module IdentityValidation {
  import opened Json

  const UsernameMin: nat := 3
  const UsernameMax: nat := 50
  const PasswordMin: nat := 6

  /** Joi's `string().email().required()` for `email`. */
  predicate RequiredEmail(body: Body, isEmail: string -> bool)
  {
    "email" in body && body["email"].Str? && isEmail(body["email"].s)
  }

  predicate ValidRegistration(body: Body, isEmail: string -> bool)
  {
    && OnlyKeys(body, {"username", "email", "password"})
    && RequiredStringWithin(body, "username", UsernameMin, UsernameMax)
    && RequiredEmail(body, isEmail)
    && RequiredStringAtLeast(body, "password", PasswordMin)
  }

  predicate ValidLogin(body: Body, isEmail: string -> bool)
  {
    && OnlyKeys(body, {"email", "password"})
    && RequiredEmail(body, isEmail)
    && RequiredStringAtLeast(body, "password", PasswordMin)
  }

  /** The body of three strings. */
  function RegistrationBody(username: string, email: string, password: string): Body
  {
    map["username" := Str(username), "email" := Str(email), "password" := Str(password)]
  }

  /** For a body of three strings the registration schema is exactly the
      conjunction of the three field rules. */
  lemma RegistrationFields(username: string, email: string, password: string, isEmail: string -> bool)
    ensures ValidRegistration(RegistrationBody(username, email, password), isEmail)
        <==> 3 <= Utf16Length(username) <= 50 && isEmail(email) && 6 <= Utf16Length(password)
  {
  }

  /** Each of the three fields is required. */
  lemma RegistrationNeedsAllFields(body: Body, isEmail: string -> bool)
    requires "username" !in body || "email" !in body || "password" !in body
    ensures !ValidRegistration(body, isEmail)
  {
  }

  /** The login schema has no `username`: a body carrying one is refused. */
  lemma LoginRefusesUsername(body: Body, isEmail: string -> bool)
    requires "username" in body
    ensures !ValidLogin(body, isEmail)
  {
  }

  /** The two schemas apply the same e-mail and password rules: a valid
      registration without its `username` is a valid login. */
  lemma RegistrationGivesLogin(body: Body, isEmail: string -> bool)
    requires ValidRegistration(body, isEmail)
    ensures ValidLogin(map k | k in body && k != "username" :: body[k], isEmail)
  {
  }

  /** Conversely, a valid login plus a `username` within bounds is a valid
      registration: the schemas share their e-mail and password rules. */
  lemma LoginGivesRegistration(body: Body, isEmail: string -> bool, username: string)
    requires ValidLogin(body, isEmail) && 3 <= Utf16Length(username) <= 50
    ensures ValidRegistration(body["username" := Str(username)], isEmail)
  {
  }

  /** A username of emoji counts two units per character, so it may have
      only 2 to 25 of them. */
  lemma AstralUsernameLimit(username: string, email: string, password: string, isEmail: string -> bool)
    requires forall i :: 0 <= i < |username| ==> username[i] as int >= 0x10000
    ensures ValidRegistration(RegistrationBody(username, email, password), isEmail)
        <==> 2 <= |username| <= 25 && isEmail(email) && 6 <= Utf16Length(password)
  {
    AstralLength(username);
  }

  /** The password has no upper length bound in either schema. */
  lemma LongPasswordAccepted(email: string, password: string, isEmail: string -> bool)
    requires isEmail(email) && Utf16Length(password) >= 6
    ensures ValidLogin(map["email" := Str(email), "password" := Str(password)], isEmail)
  {
  }
}
