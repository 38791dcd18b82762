/** The authentication middleware: reads `Authorization: Bearer <token>`
    and asks the token verifier for a payload. `verifyToken` (a JWT check)
    is the parameter `verify`. */
module Auth {
  import opened Wrappers
  import opened Text

  const AUTH_REQUIRED: string := "Authentication required"
  const BAD_FORMAT: string := "Invalid authorization format. Use: Bearer <token>"
  const BAD_TOKEN: string := "Invalid or expired token"
  const BEARER: string := "Bearer"

  /** `s.split(sep)` for a one-character separator: the pieces between
      separators, empty pieces included. */
  function Split(s: string, sep: char): (parts: seq<string>)
    ensures |parts| >= 1
    ensures forall i :: 0 <= i < |parts| ==> sep !in parts[i]
    decreases |s|
  {
    if |s| == 0 then [""]
    else
      var rest := Split(s[1..], sep);
      if s[0] == sep then [""] + rest
      else [[s[0]] + rest[0]] + rest[1..]
  }

  /** Joining the pieces with the separator gives back the string. */
  lemma {:induction false} SplitJoin(s: string, sep: char)
    ensures Join(Split(s, sep), [sep]) == s
    decreases |s|
  {
    if |s| > 0 {
      SplitJoin(s[1..], sep);
      var rest := Split(s[1..], sep);
      if s[0] == sep {
        assert ([""] + rest)[1..] == rest;
      } else {
        var parts := [[s[0]] + rest[0]] + rest[1..];
        if |rest| > 1 {
          assert parts[1..] == rest[1..];
        }
      }
      assert s == [s[0]] + s[1..];
    }
  }

  lemma {:induction false} SplitWithoutSeparator(s: string, sep: char)
    requires sep !in s
    ensures Split(s, sep) == [s]
    decreases |s|
  {
    if |s| > 0 {
      SplitWithoutSeparator(s[1..], sep);
      assert s == [s[0]] + s[1..];
    }
  }

  lemma {:induction false} SplitAfterPiece(a: string, sep: char, b: string)
    requires sep !in a
    ensures Split(a + [sep] + b, sep) == [a] + Split(b, sep)
    decreases |a|
  {
    if |a| == 0 {
      assert a + [sep] + b == [sep] + b;
      assert ([sep] + b)[1..] == b;
    } else {
      SplitAfterPiece(a[1..], sep, b);
      assert (a + [sep] + b)[1..] == a[1..] + [sep] + b;
      assert a == [a[0]] + a[1..];
    }
  }

  /** The token of a header that splits on `' '` into exactly
      `["Bearer", token]`. */
  function BearerToken(header: string): Option<string> {
    var parts := Split(header, ' ');
    if |parts| == 2 && parts[0] == BEARER then Some(parts[1]) else None
  }

  /** A header is accepted in form exactly when it is `"Bearer "` followed
      by a token with no space; the token is handed on verbatim (it may be
      empty). */
  lemma BearerTokenIff(header: string, token: string)
    ensures BearerToken(header) == Some(token) <==> header == BEARER + " " + token && ' ' !in token
  {
    if BearerToken(header) == Some(token) {
      SplitJoin(header, ' ');
      var parts := Split(header, ' ');
      assert parts[1..] == [token];
    }
    if header == BEARER + " " + token && ' ' !in token {
      SplitAfterPiece(BEARER, ' ', token);
      SplitWithoutSeparator(token, ' ');
    }
  }

  datatype AuthOutcome<P> = Unauthorized(error: string) | Next(user: P)

  /** `authMiddleware`: every path either answers 401 or calls `next` with
      `req.user` set to the payload. */
  function Authenticate<P>(header: Option<string>, verify: string -> Option<P>): (o: AuthOutcome<P>)
    ensures header.None? || header.value == "" ==> o == Unauthorized(AUTH_REQUIRED)
    ensures header.Some? && header.value != "" && BearerToken(header.value).None? ==> o == Unauthorized(BAD_FORMAT)
    ensures header.Some? && BearerToken(header.value).Some? ==>
              o == match verify(BearerToken(header.value).value)
                   case None => Unauthorized(BAD_TOKEN)
                   case Some(p) => Next(p)
  {
    if header.None? || header.value == "" then Unauthorized(AUTH_REQUIRED)
    else
      match BearerToken(header.value)
      case None => Unauthorized(BAD_FORMAT)
      case Some(token) =>
        match verify(token)
        case None => Unauthorized(BAD_TOKEN)
        case Some(p) => Next(p)
  }

  /** The middleware lets a request through exactly when the header is
      `Bearer <token>`, the token has no space, and the verifier accepts
      that token; the user attached is the verifier's payload. */
  lemma AuthenticatedIff<P>(token: string, verify: string -> Option<P>)
    ensures var o := Authenticate(Some(BEARER + " " + token), verify);
            (o.Next? <==> ' ' !in token && verify(token).Some?)
            && (o.Next? ==> o.user == verify(token).value)
  {
    var h := BEARER + " " + token;
    BearerTokenIff(h, token);
    if BearerToken(h).Some? {
      var t := BearerToken(h).value;
      BearerTokenIff(h, t);
      assert h[7..] == t && h[7..] == token;
    }
  }

  /** Two spaces, or a scheme other than exactly `Bearer`, are refused
      before the verifier is consulted. */
  lemma MalformedHeaders(token: string)
    ensures BearerToken("bearer " + token).None?
    ensures BearerToken(BEARER + "  " + token).None?
  {
    assert "bearer " + token == "bearer" + [' '] + token;
    SplitAfterPiece("bearer", ' ', token);
    assert BEARER + "  " + token == BEARER + [' '] + (" " + token);
    SplitAfterPiece(BEARER, ' ', " " + token);
    assert " " + token == [] + [' '] + token;
    SplitAfterPiece([], ' ', token);
  }
}
