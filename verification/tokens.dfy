/** `generateTokens`: a signed access token carrying the user's id and name,
    valid for 60 minutes, and an opaque refresh token, the hexadecimal text of
    40 random bytes, stored with the user's id and an expiry seven days
    ahead. Signing and the random source are parameters; times are
    milliseconds on an abstract clock. */
module Tokens {
  import opened Hex

  datatype User = User(id: string, username: string, email: string, password: string)

  /** The payload `jwt.sign` is given. */
  datatype Claims = Claims(userId: string, username: string)

  datatype AccessToken = AccessToken(claims: Claims, expiresInMinutes: nat)

  /** A stored `RefreshToken` document. */
  datatype RefreshToken = RefreshToken(token: string, user: string, expiresAt: int)

  const AccessTokenMinutes: nat := 60
  const RefreshTokenBytes: nat := 40
  const RefreshTokenDays: nat := 7
  const DayMillis: nat := 86400000

  /** The pair handed back to the handler and the token store after the
      refresh token was saved. */
  datatype Issued = Issued(access: AccessToken, refresh: string, tokens: seq<RefreshToken>)

  /** `generateTokens(user)` at time `now` with `random` the output of
      `crypto.randomBytes(40)`. */
  function GenerateTokens(tokens: seq<RefreshToken>, user: User, random: seq<uint8>, now: int): (r: Issued)
    requires |random| == RefreshTokenBytes
    ensures r.access == AccessToken(Claims(user.id, user.username), 60)
    ensures r.refresh == Encode(random) && Decode(r.refresh) == random
    ensures |r.refresh| == 80 && forall i :: 0 <= i < |r.refresh| ==> IsLowerHex(r.refresh[i])
    ensures |r.tokens| == |tokens| + 1 && r.tokens[..|tokens|] == tokens
    ensures r.tokens[|tokens|].token == r.refresh
    ensures r.tokens[|tokens|].user == user.id
    ensures r.tokens[|tokens|].expiresAt == now + 7 * 86400000
  {
    var refresh := Encode(random);
    DecodeEncode(random);
    Issued(AccessToken(Claims(user.id, user.username), AccessTokenMinutes),
           refresh,
           tokens + [RefreshToken(refresh, user.id, now + RefreshTokenDays * DayMillis)])
  }

  /** The store after `generateTokens`: the old records, then the new one. */
  lemma IssuedRecord(tokens: seq<RefreshToken>, user: User, random: seq<uint8>, now: int)
    requires |random| == RefreshTokenBytes
    ensures var r := GenerateTokens(tokens, user, random, now);
            r.tokens == tokens + [RefreshToken(r.refresh, user.id, now + 7 * 86400000)]
  {
  }

  /** The refresh token determines the random bytes it was made from: two
      different draws never give the same token. */
  lemma RefreshTokenCarriesRandom(tokens: seq<RefreshToken>, user: User, random: seq<uint8>, now: int)
    requires |random| == RefreshTokenBytes
    ensures Decode(GenerateTokens(tokens, user, random, now).refresh) == random
  {
    DecodeEncode(random);
  }

  lemma DistinctDrawsDistinctTokens(tokens: seq<RefreshToken>, user: User, random1: seq<uint8>, random2: seq<uint8>, now: int)
    requires |random1| == RefreshTokenBytes && |random2| == RefreshTokenBytes && random1 != random2
    ensures GenerateTokens(tokens, user, random1, now).refresh != GenerateTokens(tokens, user, random2, now).refresh
  {
    RefreshTokenCarriesRandom(tokens, user, random1, now);
    RefreshTokenCarriesRandom(tokens, user, random2, now);
  }
}
