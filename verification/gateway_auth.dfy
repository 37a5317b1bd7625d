/** The gateway's `validateToken`: the token is the second space-separated
    field of the `Authorization` header, whatever the first field says; no
    token gives 401, a token the verifier refuses gives 429, and a verified
    token hands its payload on. JWT verification is the parameter `verify`. */
module GatewayAuth {
  import opened Common
  import opened Tokens

  /** Position of the first `c` in `s`. */
  function IndexOf(s: string, c: char): (i: nat)
    requires c in s
    ensures i < |s| && s[i] == c && c !in s[..i]
  {
    if s[0] == c then 0
    else
      var i := 1 + IndexOf(s[1..], c);
      assert s[..i] == [s[0]] + s[1..][..i - 1];
      i
  }

  /** The first occurrence is the one with no earlier occurrence. */
  lemma {:induction false} IndexOfFirst(s: string, c: char, k: nat)
    requires k < |s| && s[k] == c && c !in s[..k]
    ensures IndexOf(s, c) == k
  {
    if k > 0 {
      assert s[0] in s[..k];
      assert s[1..][..k - 1] == s[..k][1..];
      IndexOfFirst(s[1..], c, k - 1);
    }
  }

  /** JavaScript's `s.split(sep)` for a one-character separator: the maximal
      separator-free runs, empty ones included. */
  function Split(s: string, sep: char): (parts: seq<string>)
    ensures |parts| >= 1
    ensures forall i :: 0 <= i < |parts| ==> sep !in parts[i]
    decreases |s|
  {
    if sep !in s then [s]
    else
      var i := IndexOf(s, sep);
      [s[..i]] + Split(s[i + 1..], sep)
  }

  /** `parts.join(sep)`, the inverse of `Split`. */
  function Join(parts: seq<string>, sep: char): string
    requires |parts| >= 1
  {
    if |parts| == 1 then parts[0] else parts[0] + [sep] + Join(parts[1..], sep)
  }

  /** Joining the fields gives back the header. */
  lemma {:induction false} JoinSplit(s: string, sep: char)
    ensures Join(Split(s, sep), sep) == s
    decreases |s|
  {
    if sep in s {
      var i := IndexOf(s, sep);
      var tail := Split(s[i + 1..], sep);
      var parts := [s[..i]] + tail;
      assert Split(s, sep) == parts;
      assert parts[0] == s[..i] && parts[1..] == tail;
      JoinSplit(s[i + 1..], sep);
      assert Join(parts, sep) == s[..i] + [sep] + s[i + 1..];
      assert s == s[..i] + [sep] + s[i + 1..];
    }
  }

  /** A separator-free field followed by the separator splits off first. */
  lemma SplitCons(head: string, sep: char, rest: string)
    requires sep !in head
    ensures Split(head + [sep] + rest, sep) == [head] + Split(rest, sep)
  {
    var s := head + [sep] + rest;
    assert s[|head|] == sep;
    assert s[..|head|] == head;
    IndexOfFirst(s, sep, |head|);
    assert s[|head| + 1..] == rest;
  }

  /** Splitting a join of separator-free fields gives back the fields. */
  lemma {:induction false} SplitJoin(parts: seq<string>, sep: char)
    requires |parts| >= 1
    requires forall i :: 0 <= i < |parts| ==> sep !in parts[i]
    ensures Split(Join(parts, sep), sep) == parts
    decreases |parts|
  {
    if |parts| > 1 {
      var tail := parts[1..];
      assert forall j :: 0 <= j < |tail| ==> tail[j] == parts[j + 1];
      SplitJoin(tail, sep);
      assert sep !in parts[0];
      SplitCons(parts[0], sep, Join(tail, sep));
      assert parts == [parts[0]] + tail;
    } else {
      assert sep !in parts[0];
    }
  }

  /** `authHeader && authHeader.split(" ")[1]`, with `None` for every value
      the handler treats as no token (`undefined`, or an empty header). */
  function ExtractToken(header: Option<string>): (token: Option<string>)
    ensures token.Some? <==> header.Some? && ' ' in header.value
    ensures token.Some? ==> ' ' !in token.value
  {
    if header.None? then None
    else
      var fields := Split(header.value, ' ');
      if |fields| >= 2 then Some(fields[1]) else None
  }

  /** What `if (!token)` lets through: a present, non-empty token. */
  predicate HasToken(token: Option<string>)
  {
    token.Some? && token.value != ""
  }

  /** The middleware's decision: a status sent, or `next()` with `req.user`. */
  datatype Gate = Reject(status: int) | Next(user: Claims)

  function ValidateToken(header: Option<string>, verify: string -> Option<Claims>): (g: Gate)
    ensures g == Reject(401) <==> !HasToken(ExtractToken(header))
    ensures g == Reject(429) <==> HasToken(ExtractToken(header)) && verify(ExtractToken(header).value).None?
    ensures g.Next? <==> HasToken(ExtractToken(header)) && verify(ExtractToken(header).value).Some?
    ensures g.Next? ==> Some(g.user) == verify(ExtractToken(header).value)
  {
    var token := ExtractToken(header);
    if !HasToken(token) then Reject(401)
    else match verify(token.value)
      case None => Reject(429)
      case Some(claims) => Next(claims)
  }

  lemma FieldsWithoutSpace(scheme: string, token: string, rest: seq<string>)
    requires ' ' !in scheme && ' ' !in token
    requires forall i :: 0 <= i < |rest| ==> ' ' !in rest[i]
    ensures forall i :: 0 <= i < |[scheme, token] + rest| ==> ' ' !in ([scheme, token] + rest)[i]
  {
    var parts := [scheme, token] + rest;
    forall i | 0 <= i < |parts| ensures ' ' !in parts[i] {
      if i >= 2 {
        assert parts[i] == rest[i - 2];
      }
    }
  }

  /** The token is the second field, and the fields after it are ignored. */
  lemma TokenIsSecondField(scheme: string, token: string, rest: seq<string>)
    requires ' ' !in scheme && ' ' !in token
    requires forall i :: 0 <= i < |rest| ==> ' ' !in rest[i]
    ensures ExtractToken(Some(Join([scheme, token] + rest, ' '))) == Some(token)
  {
    var parts := [scheme, token] + rest;
    FieldsWithoutSpace(scheme, token, rest);
    SplitJoin(parts, ' ');
    assert parts[1] == token;
  }

  /** The scheme word is not checked: any first field gives the same
      decision as `Bearer`. */
  lemma SchemeNotChecked(scheme: string, token: string, verify: string -> Option<Claims>)
    requires ' ' !in scheme && ' ' !in token
    ensures ValidateToken(Some(scheme + " " + token), verify) == ValidateToken(Some("Bearer " + token), verify)
  {
    TokenIsSecondField(scheme, token, []);
    TokenIsSecondField("Bearer", token, []);
    assert Join([scheme, token], ' ') == scheme + " " + token;
    assert Join(["Bearer", token], ' ') == "Bearer " + token;
  }

  /** A header of one word carries no token. */
  lemma SingleWordRejected(word: string, verify: string -> Option<Claims>)
    requires ' ' !in word
    ensures ValidateToken(Some(word), verify) == Reject(401)
  {
  }

  /** Two spaces after the scheme leave an empty second field, so the token
      after them is never looked at. */
  lemma DoubleSpaceRejected(token: string, verify: string -> Option<Claims>)
    requires ' ' !in token
    ensures ValidateToken(Some("Bearer  " + token), verify) == Reject(401)
  {
    TokenIsSecondField("Bearer", "", [token]);
    var parts := ["Bearer", "", token];
    assert parts == ["Bearer", ""] + [token];
    assert parts[1..] == ["", token] && parts[1..][1..] == [token];
    assert Join(parts[1..], ' ') == "" + [' '] + token;
    assert Join(parts, ' ') == "Bearer" + [' '] + ("" + [' '] + token);
    assert "Bearer" + [' '] + ("" + [' '] + token) == "Bearer  " + token;
  }
}
