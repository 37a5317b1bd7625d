/** The identity service's handlers as transitions of (user store, refresh
    token store): registration with a uniqueness check on e-mail and user
    name, login, refresh-token rotation and logout. The password check
    (argon2 in the user model), Joi's e-mail grammar, the store's id
    generator, the random bytes and the clock are parameters. */
module IdentityController {
  import opened Common
  import Json
  import opened Hex
  import opened Tokens
  import opened IdentityValidation

  datatype State = State(users: seq<User>, tokens: seq<RefreshToken>)

  /** The HTTP answer: a token pair (with the user's id after a login), or a
      status with the `success` flag of a message body. */
  datatype Reply =
    | Pair(status: int, access: AccessToken, refresh: string)
    | LoginPair(access: AccessToken, refresh: string, userId: string)
    | Message(status: int, success: bool)
  {
    function Status(): int
    {
      if LoginPair? then 200 else status
    }
  }

  datatype Outcome = Outcome(state: State, reply: Reply)

  /** `User.findOne({ $or: [{ email }, { username }] })`. */
  function FindClash(users: seq<User>, email: string, username: string): Option<nat>
  {
    FirstIndex(users, (u: User) => u.email == email || u.username == username)
  }

  /** `User.findOne({ email })`. */
  function FindByEmail(users: seq<User>, email: string): Option<nat>
  {
    FirstIndex(users, (u: User) => u.email == email)
  }

  /** `User.findById(id)`. */
  function FindUser(users: seq<User>, id: string): Option<nat>
  {
    FirstIndex(users, (u: User) => u.id == id)
  }

  /** `RefreshToken.findOne({ token })` and `deleteOne({ token })`. */
  function FindToken(tokens: seq<RefreshToken>, token: string): Option<nat>
  {
    FirstIndex(tokens, (t: RefreshToken) => t.token == token)
  }

  /** `!refreshToken` for a body field that is absent or a string. */
  predicate Missing(token: Option<string>)
  {
    token.None? || token.value == ""
  }

  /** `registerUser`. `newId` is the id the store assigns; a clash with an
      existing id is the store's duplicate-key error. */
  function Register(st: State, body: Json.Body, isEmail: string -> bool, newId: string,
                    random: seq<uint8>, now: int): (r: Outcome)
    requires |random| == RefreshTokenBytes
    ensures !ValidRegistration(body, isEmail) ==> r == Outcome(st, Message(400, false))
    ensures (&& ValidRegistration(body, isEmail)
             && exists u :: u in st.users && (u.email == body["email"].s || u.username == body["username"].s))
              ==> r == Outcome(st, Message(400, false))
    ensures r.reply.Status() == 201 <==>
              && ValidRegistration(body, isEmail)
              && (forall u :: u in st.users ==> u.email != body["email"].s && u.username != body["username"].s)
              && (forall u :: u in st.users ==> u.id != newId)
    ensures r.reply.Status() == 201 ==>
              var user := User(newId, body["username"].s, body["email"].s, body["password"].s);
              && r.state.users == st.users + [user]
              && |r.state.tokens| == |st.tokens| + 1 && r.state.tokens[..|st.tokens|] == st.tokens
              && r.state.tokens[|st.tokens|] == RefreshToken(Encode(random), newId, now + 7 * 86400000)
              && r.reply == Pair(201, AccessToken(Claims(newId, user.username), 60), Encode(random))
    ensures r.reply.Status() != 201 ==> r.state == st && r.reply.Message? && !r.reply.success
  {
    if !ValidRegistration(body, isEmail) then Outcome(st, Message(400, false))
    else
      var email, username, password := body["email"].s, body["username"].s, body["password"].s;
      if FindClash(st.users, email, username).Some? then Outcome(st, Message(400, false))
      else if FindUser(st.users, newId).Some? then Outcome(st, Message(500, false))
      else
        var user := User(newId, username, email, password);
        var issued := GenerateTokens(st.tokens, user, random, now);
        Outcome(State(st.users + [user], issued.tokens), Pair(201, issued.access, issued.refresh))
  }

  /** `users[i]` is the user `findOne({ email })` returns. */
  predicate FirstWithEmail(users: seq<User>, email: string, i: int)
  {
    0 <= i < |users| && users[i].email == email && forall j :: 0 <= j < i ==> users[j].email != email
  }

  /** No two users share an e-mail address or a user name. */
  predicate UniqueAccounts(users: seq<User>)
  {
    forall i, j :: 0 <= i < j < |users| ==> users[i].email != users[j].email && users[i].username != users[j].username
  }

  /** `loginUser`. `passwordMatches(user, password)` is the user model's
      `comparePassword`. */
  function Login(st: State, body: Json.Body, isEmail: string -> bool,
                 passwordMatches: (User, string) -> bool, random: seq<uint8>, now: int): (r: Outcome)
    requires |random| == RefreshTokenBytes
    ensures r.state.users == st.users
    ensures r.reply.Status() == 200 <==>
              && ValidLogin(body, isEmail)
              && exists i {:trigger FirstWithEmail(st.users, body["email"].s, i)} ::
                   FirstWithEmail(st.users, body["email"].s, i) && passwordMatches(st.users[i], body["password"].s)
    ensures r.reply.Status() != 200 ==> r == Outcome(st, Message(400, false))
    ensures r.reply.Status() == 200 ==>
              && r.reply.LoginPair?
              && exists i {:trigger FirstWithEmail(st.users, body["email"].s, i)} ::
                       && FirstWithEmail(st.users, body["email"].s, i)
                       && r.state.tokens == st.tokens + [RefreshToken(r.reply.refresh, st.users[i].id, now + 7 * 86400000)]
                       && r.reply.userId == st.users[i].id
                       && r.reply.access == AccessToken(Claims(st.users[i].id, st.users[i].username), 60)
    ensures r.reply.Status() == 200 ==> r.reply.refresh == Encode(random)
  {
    if !ValidLogin(body, isEmail) then Outcome(st, Message(400, false))
    else
      var email, password := body["email"].s, body["password"].s;
      match FindByEmail(st.users, email)
      case None => Outcome(st, Message(400, false))
      case Some(i) =>
        assert FirstWithEmail(st.users, email, i);
        if !passwordMatches(st.users[i], password) then Outcome(st, Message(400, false))
        else
          var issued := GenerateTokens(st.tokens, st.users[i], random, now);
          IssuedRecord(st.tokens, st.users[i], random, now);
          Outcome(st.(tokens := issued.tokens), LoginPair(issued.access, issued.refresh, st.users[i].id))
  }

  /** `refreshTokenUser`: a live token is rotated, i.e. a new one is issued for
      the same user and the presented record is deleted. A token is expired
      only when its expiry lies strictly before `now`. */
  function Refresh(st: State, token: Option<string>, random: seq<uint8>, now: int): (r: Outcome)
    requires |random| == RefreshTokenBytes
    ensures r.state.users == st.users
    ensures Missing(token) ==> r == Outcome(st, Message(400, false))
    ensures (!Missing(token) && forall i :: 0 <= i < |st.tokens| ==> st.tokens[i].token != token.value)
              ==> r == Outcome(st, Message(401, false))
    ensures r.reply.Status() != 200 ==> r.state == st && r.reply.Message? && r.reply.status in {400, 401}
    ensures r.reply.Status() == 200 ==>
              && !Missing(token) && r.reply.Pair? && r.reply.refresh == Encode(random)
              && exists i {:trigger FirstWithToken(st.tokens, token.value, i)} ::
                       && FirstWithToken(st.tokens, token.value, i)
                       && !(st.tokens[i].expiresAt < now)
                       && (exists u :: u in st.users && u.id == st.tokens[i].user)
                       && var issued := RefreshToken(r.reply.refresh, st.tokens[i].user, now + 7 * 86400000);
                          r.state.tokens == RemoveAt(st.tokens + [issued], i)
                          && multiset(r.state.tokens) + multiset{st.tokens[i]} == multiset(st.tokens) + multiset{issued}
  {
    if Missing(token) then Outcome(st, Message(400, false))
    else match FindToken(st.tokens, token.value)
      case None => Outcome(st, Message(401, false))
      case Some(i) =>
        assert FirstWithToken(st.tokens, token.value, i);
        Redeem(st, i, random, now)
  }

  /** `tokens[i]` is the record `findOne({ token })` returns. */
  predicate FirstWithToken(tokens: seq<RefreshToken>, token: string, i: int)
  {
    0 <= i < |tokens| && tokens[i].token == token && forall j :: 0 <= j < i ==> tokens[j].token != token
  }

  /** `refreshTokenUser` once record `i` was found: it must not have expired
      and its user must still exist. */
  function Redeem(st: State, i: nat, random: seq<uint8>, now: int): (r: Outcome)
    requires |random| == RefreshTokenBytes && i < |st.tokens|
    ensures r.state.users == st.users
    ensures r.reply.Status() != 200 ==> r == Outcome(st, Message(401, false))
    ensures r.reply.Status() == 200 <==>
              !(st.tokens[i].expiresAt < now) && exists u :: u in st.users && u.id == st.tokens[i].user
    ensures r.reply.Status() == 200 ==>
              && r.reply.Pair? && r.reply.refresh == Encode(random)
              && var issued := RefreshToken(r.reply.refresh, st.tokens[i].user, now + 7 * 86400000);
                 && r.state.tokens == RemoveAt(st.tokens + [issued], i)
                 && multiset(r.state.tokens) + multiset{st.tokens[i]} == multiset(st.tokens) + multiset{issued}
  {
    var stored := st.tokens[i];
    if stored.expiresAt < now then Outcome(st, Message(401, false))
    else match FindUser(st.users, stored.user)
      case None => Outcome(st, Message(401, false))
      case Some(u) =>
        assert st.users[u] in st.users;
        Rotate(st, i, u, random, now)
  }

  /** The successful end of `refreshTokenUser`: tokens for the owner of
      record `i`, then the deletion of that record. */
  function Rotate(st: State, i: nat, u: nat, random: seq<uint8>, now: int): (r: Outcome)
    requires |random| == RefreshTokenBytes && i < |st.tokens| && u < |st.users|
    requires st.users[u].id == st.tokens[i].user
    ensures r.state.users == st.users && r.reply.Pair? && r.reply.status == 200 && r.reply.refresh == Encode(random)
    ensures var issued := RefreshToken(r.reply.refresh, st.tokens[i].user, now + 7 * 86400000);
            && r.state.tokens == RemoveAt(st.tokens + [issued], i)
            && multiset(r.state.tokens) + multiset{st.tokens[i]} == multiset(st.tokens) + multiset{issued}
  {
    var issued := GenerateTokens(st.tokens, st.users[u], random, now);
    IssuedRecord(st.tokens, st.users[u], random, now);
    assert issued.tokens[i] == st.tokens[i];
    Outcome(st.(tokens := RemoveAt(issued.tokens, i)), Pair(200, issued.access, issued.refresh))
  }

  /** `logoutUser`: deletes the first record holding the token, if any, and
      reports success either way. */
  function Logout(st: State, token: Option<string>): (r: Outcome)
    ensures r.state.users == st.users
    ensures Missing(token) <==> r.reply == Message(400, false)
    ensures Missing(token) ==> r.state == st
    ensures !Missing(token) ==> r.reply == Message(200, true)
    ensures !Missing(token) && (forall t :: t in st.tokens ==> t.token != token.value) ==> r.state == st
    ensures !Missing(token) && (exists t :: t in st.tokens && t.token == token.value) ==>
              && |r.state.tokens| == |st.tokens| - 1
              && exists t :: t in st.tokens && t.token == token.value
                       && multiset(r.state.tokens) + multiset{t} == multiset(st.tokens)
    ensures !Missing(token) && FindToken(st.tokens, token.value).Some? ==>
              r.state.tokens == RemoveAt(st.tokens, FindToken(st.tokens, token.value).value)
  {
    if Missing(token) then Outcome(st, Message(400, false))
    else match FindToken(st.tokens, token.value)
      case None => Outcome(st, Message(200, true))
      case Some(i) => Outcome(st.(tokens := RemoveAt(st.tokens, i)), Message(200, true))
  }

  /** The body's `refreshToken` as `express.json()` delivers it to the
      handlers, which pass it unchecked into the query: a string, or the
      object `{ "$ne": null }`, which reaches MongoDB as a query operator. */
  datatype TokenField = TokenText(s: string) | NotNullOperator

  /** `{ token: refreshToken }` as written. Every stored token is a string,
      so `{ "$ne": null }` matches every record and the first one is found. */
  function FindTokenAsWritten(tokens: seq<RefreshToken>, field: TokenField): (r: Option<nat>)
    ensures field.NotNullOperator? ==> (r.Some? <==> |tokens| > 0) && (r.Some? ==> r.value == 0)
    ensures field.TokenText? && r.Some? ==> FirstWithToken(tokens, field.s, r.value)
    ensures field.TokenText? && r.None? ==> forall t :: t in tokens ==> t.token != field.s
  {
    match field
    case TokenText(token) => FindToken(tokens, token)
    case NotNullOperator => FirstIndex(tokens, (t: RefreshToken) => true)
  }

  /** `refreshTokenUser` as written, over a body field that may be the
      operator object. */
  function RefreshAsWritten(st: State, field: Option<TokenField>, random: seq<uint8>, now: int): (r: Outcome)
    requires |random| == RefreshTokenBytes
    ensures field.None? ==> r == Refresh(st, None, random, now)
    ensures field.Some? && field.value.TokenText? ==> r == Refresh(st, Some(field.value.s), random, now)
    ensures field == Some(NotNullOperator) && |st.tokens| == 0 ==> r == Outcome(st, Message(401, false))
    ensures field == Some(NotNullOperator) && |st.tokens| > 0 ==> r == Redeem(st, 0, random, now)
  {
    match field
    case None => Refresh(st, None, random, now)
    case Some(TokenText(token)) => Refresh(st, Some(token), random, now)
    case Some(NotNullOperator) =>
      match FindTokenAsWritten(st.tokens, NotNullOperator)
      case None => Outcome(st, Message(401, false))
      case Some(i) => Redeem(st, i, random, now)
  }

  /** `logoutUser` as written, over a body field that may be the operator
      object. */
  function LogoutAsWritten(st: State, field: Option<TokenField>): (r: Outcome)
    ensures field.None? ==> r == Logout(st, None)
    ensures field.Some? && field.value.TokenText? ==> r == Logout(st, Some(field.value.s))
    ensures field == Some(NotNullOperator) ==> r.reply == Message(200, true) && r.state.users == st.users
    ensures field == Some(NotNullOperator) ==> r.state.tokens == if |st.tokens| == 0 then [] else st.tokens[1..]
  {
    match field
    case None => Logout(st, None)
    case Some(TokenText(token)) => Logout(st, Some(token))
    case Some(NotNullOperator) =>
      match FindTokenAsWritten(st.tokens, NotNullOperator)
      case None => Outcome(st, Message(200, true))
      case Some(i) => Outcome(st.(tokens := RemoveAt(st.tokens, i)), Message(200, true))
  }

  /** The operator object refreshes the first stored session without the
      caller holding any token: when that record is live and its user
      exists, the answer is 200 with a fresh pair for that user. */
  lemma OperatorTokenRefreshes(st: State, random: seq<uint8>, now: int)
    requires |random| == RefreshTokenBytes
    requires |st.tokens| > 0 && !(st.tokens[0].expiresAt < now)
    requires exists u :: u in st.users && u.id == st.tokens[0].user
    ensures var r := RefreshAsWritten(st, Some(NotNullOperator), random, now);
            && r.reply.Status() == 200 && r.reply.Pair?
            && r.state.tokens == RemoveAt(st.tokens + [RefreshToken(Encode(random), st.tokens[0].user, now + 7 * 86400000)], 0)
  {
    var r := Redeem(st, 0, random, now);
    assert r.reply.Status() == 200;
  }

  /** The operator object logs out the first stored session, whoever owns
      it. */
  lemma OperatorTokenLogsOutAnySession(st: State)
    requires |st.tokens| > 0
    ensures LogoutAsWritten(st, Some(NotNullOperator)).state.tokens == st.tokens[1..]
  {
  }

  /** A concrete store: one live session of user "alice"; the caller sends
      `{ "refreshToken": { "$ne": null } }` and holds no token. */
  lemma OperatorTokenExample(random: seq<uint8>)
    requires |random| == RefreshTokenBytes
    ensures var st := State([User("alice", "alice", "alice@example.com", "secret")],
                            [RefreshToken("0a1b", "alice", 100)]);
            && RefreshAsWritten(st, Some(NotNullOperator), random, 0).reply.Status() == 200
            && (forall token :: Refresh(st, Some(token), random, 0).reply.Status() == 200 ==> token == "0a1b")
  {
    var st := State([User("alice", "alice", "alice@example.com", "secret")],
                    [RefreshToken("0a1b", "alice", 100)]);
    assert st.users[0] in st.users;
    OperatorTokenRefreshes(st, random, 0);
    forall token | Refresh(st, Some(token), random, 0).reply.Status() == 200 ensures token == "0a1b" {
      RefreshNeedsStoredToken(st, Some(token), random, 0);
    }
  }

  /** With the body field read as text, a refresh succeeds only for a caller
      presenting the exact value of a stored, live token. */
  lemma RefreshNeedsStoredToken(st: State, token: Option<string>, random: seq<uint8>, now: int)
    requires |random| == RefreshTokenBytes
    ensures Refresh(st, token, random, now).reply.Status() == 200 ==>
              && token.Some? && token.value != ""
              && exists t :: t in st.tokens && t.token == token.value && !(t.expiresAt < now)
  {
    if !Missing(token) {
      match FindToken(st.tokens, token.value)
      case None =>
      case Some(i) =>
        assert st.tokens[i] in st.tokens;
    }
  }

  /** No two stored refresh tokens have the same value. */
  predicate UniqueTokens(tokens: seq<RefreshToken>)
  {
    forall i, j :: 0 <= i < j < |tokens| ==> tokens[i].token != tokens[j].token
  }

  /** The uniqueness check keeps e-mail addresses and user names unique. */
  lemma RegisterKeepsAccountsUnique(st: State, body: Json.Body, isEmail: string -> bool, newId: string,
                                    random: seq<uint8>, now: int)
    requires |random| == RefreshTokenBytes && UniqueAccounts(st.users)
    ensures UniqueAccounts(Register(st, body, isEmail, newId, random, now).state.users)
  {
    var users := Register(st, body, isEmail, newId, random, now).state.users;
    if users != st.users {
      forall i, j | 0 <= i < j < |users|
        ensures users[i].email != users[j].email && users[i].username != users[j].username
      {
        if j == |st.users| {
          assert users[i] == st.users[i] && users[i] in st.users;
        } else {
          assert users[i] == st.users[i] && users[j] == st.users[j];
        }
      }
    }
  }

  /** With unique e-mail addresses, login succeeds exactly when some user has
      the e-mail and the password matches that user. */
  lemma LoginWithUniqueAccounts(st: State, body: Json.Body, isEmail: string -> bool,
                                passwordMatches: (User, string) -> bool, random: seq<uint8>, now: int)
    requires |random| == RefreshTokenBytes && UniqueAccounts(st.users) && ValidLogin(body, isEmail)
    ensures Login(st, body, isEmail, passwordMatches, random, now).reply.Status() == 200 <==>
              exists u :: u in st.users && u.email == body["email"].s && passwordMatches(u, body["password"].s)
  {
    var email, password := body["email"].s, body["password"].s;
    if u :| u in st.users && u.email == email && passwordMatches(u, password) {
      var k :| 0 <= k < |st.users| && st.users[k] == u;
      assert FirstWithEmail(st.users, email, k);
    }
  }

  /** A freshly registered account can log in with the e-mail and password it
      registered, provided the password check accepts them. */
  lemma RegisterThenLogin(st: State, username: string, email: string, password: string,
                          isEmail: string -> bool, newId: string, passwordMatches: (User, string) -> bool,
                          random1: seq<uint8>, random2: seq<uint8>, now: int, later: int)
    requires |random1| == RefreshTokenBytes && |random2| == RefreshTokenBytes
    requires Register(st, RegistrationBody(username, email, password), isEmail, newId, random1, now).reply.Status() == 201
    requires passwordMatches(User(newId, username, email, password), password)
    ensures var st' := Register(st, RegistrationBody(username, email, password), isEmail, newId, random1, now).state;
            var login := Login(st', map["email" := Json.Str(email), "password" := Json.Str(password)],
                               isEmail, passwordMatches, random2, later);
            login.reply.Status() == 200 && login.reply.userId == newId
  {
    var body := RegistrationBody(username, email, password);
    var st' := Register(st, body, isEmail, newId, random1, now).state;
    var k := |st.users|;
    assert st'.users[k] == User(newId, username, email, password);
    forall j | 0 <= j < k ensures st'.users[j].email != email {
      assert st'.users[j] == st.users[j] && st.users[j] in st.users;
    }
    assert FirstWithEmail(st'.users, email, k);
    var login := Login(st', map["email" := Json.Str(email), "password" := Json.Str(password)],
                       isEmail, passwordMatches, random2, later);
    var i :| FirstWithEmail(st'.users, email, i) && login.reply.userId == st'.users[i].id;
    assert i == k;
  }

  /** Rotation keeps the number of stored tokens. */
  lemma RefreshKeepsTokenCount(st: State, token: Option<string>, random: seq<uint8>, now: int)
    requires |random| == RefreshTokenBytes
    ensures |Refresh(st, token, random, now).state.tokens| == |st.tokens|
  {
  }

  /** A token is refused once `now` has passed its expiry, and it stays
      stored. */
  lemma ExpiredTokenRefusedAndKept(st: State, token: string, i: nat, random: seq<uint8>, now: int)
    requires |random| == RefreshTokenBytes && token != ""
    requires i < |st.tokens| && st.tokens[i].token == token && st.tokens[i].expiresAt < now
    requires forall j :: 0 <= j < i ==> st.tokens[j].token != token
    ensures Refresh(st, Some(token), random, now) == Outcome(st, Message(401, false))
  {
    assert FindToken(st.tokens, token) == Some(i);
  }

  /** At the very instant of its expiry a token is still accepted. */
  lemma TokenValidAtExpiryInstant(st: State, token: string, i: nat, random: seq<uint8>)
    requires |random| == RefreshTokenBytes && token != ""
    requires i < |st.tokens| && st.tokens[i].token == token
    requires forall j :: 0 <= j < i ==> st.tokens[j].token != token
    requires exists u :: u in st.users && u.id == st.tokens[i].user
    ensures Refresh(st, Some(token), random, st.tokens[i].expiresAt).reply.Status() == 200
  {
    assert FindToken(st.tokens, token) == Some(i);
    var u :| u in st.users && u.id == st.tokens[i].user;
    var k :| 0 <= k < |st.users| && st.users[k] == u;
    assert FindUser(st.users, st.tokens[i].user).Some?;
  }

  /** When the token's user no longer exists the request is refused and no
      token is touched. */
  lemma OrphanTokenRefused(st: State, token: string, i: nat, random: seq<uint8>, now: int)
    requires |random| == RefreshTokenBytes && token != ""
    requires i < |st.tokens| && st.tokens[i].token == token
    requires forall j :: 0 <= j < i ==> st.tokens[j].token != token
    requires forall u :: u in st.users ==> u.id != st.tokens[i].user
    ensures Refresh(st, Some(token), random, now) == Outcome(st, Message(401, false))
  {
    assert FindToken(st.tokens, token) == Some(i);
  }

  /** With unique token values, a live token whose owner exists is rotated,
      and the rotated token cannot be presented again. */
  lemma RotatedTokenRefused(st: State, i: nat, u: nat, random1: seq<uint8>, random2: seq<uint8>, now: int, later: int)
    requires |random1| == RefreshTokenBytes && |random2| == RefreshTokenBytes
    requires UniqueTokens(st.tokens) && i < |st.tokens| && st.tokens[i].token != ""
    requires !(st.tokens[i].expiresAt < now)
    requires u < |st.users| && st.users[u].id == st.tokens[i].user
    requires Encode(random1) != st.tokens[i].token
    ensures var r := Refresh(st, Some(st.tokens[i].token), random1, now);
            && r.reply.Status() == 200
            && Refresh(r.state, Some(st.tokens[i].token), random2, later) == Outcome(r.state, Message(401, false))
  {
    var token := st.tokens[i].token;
    assert FindToken(st.tokens, token) == Some(i);
    assert st.users[u] in st.users;
    var r := Redeem(st, i, random1, now);
    assert Refresh(st, Some(token), random1, now) == r;
    RotationDropsToken(st.tokens, i, RefreshToken(Encode(random1), st.tokens[i].user, now + 7 * 86400000));
  }

  /** Replacing the only record of a token by a record of another token
      leaves no record of the first. */
  lemma RotationDropsToken(tokens: seq<RefreshToken>, i: nat, issued: RefreshToken)
    requires UniqueTokens(tokens) && i < |tokens| && issued.token != tokens[i].token
    ensures var rest := RemoveAt(tokens + [issued], i);
            forall k :: 0 <= k < |rest| ==> rest[k].token != tokens[i].token
  {
    var all := tokens + [issued];
    var rest := RemoveAt(all, i);
    forall k | 0 <= k < |rest| ensures rest[k].token != tokens[i].token {
      if k < i {
        assert rest[k] == tokens[k];
      } else if k + 1 < |tokens| {
        assert rest[k] == tokens[k + 1];
      } else {
        assert rest[k] == all[|tokens|];
      }
    }
  }

  /** With unique token values, a token that has been logged out cannot be
      refreshed. */
  lemma LoggedOutTokenRefused(st: State, token: string, random: seq<uint8>, now: int)
    requires |random| == RefreshTokenBytes && token != "" && UniqueTokens(st.tokens)
    ensures var st' := Logout(st, Some(token)).state;
            Refresh(st', Some(token), random, now) == Outcome(st', Message(401, false))
  {
    var st' := Logout(st, Some(token)).state;
    match FindToken(st.tokens, token)
    case None =>
    case Some(i) =>
      forall k | 0 <= k < |st'.tokens| ensures st'.tokens[k].token != token {
        if k < i {
          assert st'.tokens[k] == st.tokens[k];
        } else {
          assert st'.tokens[k] == st.tokens[k + 1];
        }
      }
  }
}
