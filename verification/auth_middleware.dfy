/**
 * The bearer-token gate that sits in front of every project and task
 * route and of `GET /api/users/me`.  Signature and expiry checking is the
 * token library's business and arrives as the `verify` parameter: it gives
 * the decoded payload of a token it accepts and None for one it rejects.
 */
module AuthMiddleware {
  import opened Common
  import opened Text

  /** Exactly one of three things happens to a request. */
  datatype Outcome =
    | Unauthorized          // 401, `next` is not called
    | Forbidden             // 403, `next` is not called
    | Next(userId: Id)      // `req.user = { id: userId }`, then `next()` once

  const SPACE := ' '

  /**
   * `authHeader && authHeader.split(' ')[1]`, with every falsy result (no
   * header, an empty header, no second field, an empty second field)
   * collapsed to None, since the middleware treats them all alike.
   * The first field is not looked at.
   */
  function BearerToken(header: Option<string>): (token: Option<string>)
    ensures header.None? ==> token.None?
    ensures token.Some? ==> token.value != "" && SPACE !in token.value && SPACE in header.value
  {
    if header.None? || header.value == "" then None
    else
      var fields := Split(header.value, SPACE);
      if |fields| < 2 || fields[1] == "" then None
      else
        assert SPACE in header.value by {
          var h := header.value;
          assert h + "" == h;
          if SPACE !in h {
            SplitPrefix(h, "", SPACE);
          }
        }
        Some(fields[1])
  }

  /** `authenticateToken`: 401 without a token, 403 when it does not verify, else next. */
  function Authenticate(header: Option<string>, verify: string -> Option<Claims>): (r: Outcome)
    ensures r == Unauthorized <==> BearerToken(header).None?
    ensures r == Forbidden <==> BearerToken(header).Some? && verify(BearerToken(header).value).None?
    ensures r.Next? <==> BearerToken(header).Some? && verify(BearerToken(header).value).Some?
    ensures r.Next? ==> r.userId == verify(BearerToken(header).value).value.userId
  {
    match BearerToken(header)
    case None => Unauthorized
    case Some(token) =>
      match verify(token)
      case None => Forbidden
      case Some(decoded) => Next(decoded.userId)
  }

  /** After a first field and one space, the second field is the first field of what follows. */
  lemma {:induction false} SecondField(scheme: string, rest: string)
    requires SPACE !in scheme
    ensures |Split(scheme + [SPACE] + rest, SPACE)| >= 2
    ensures Split(scheme + [SPACE] + rest, SPACE)[1] == Split(rest, SPACE)[0]
  {
    var t := [SPACE] + rest;
    SplitPrefix(scheme, t, SPACE);
    assert scheme + [SPACE] + rest == scheme + t;
    assert t[0] == SPACE && t[1..] == rest;
    assert Split(t, SPACE) == [""] + Split(rest, SPACE);
  }

  /** What follows a field is empty or starts with a space: the field ends there. */
  lemma {:induction false} FieldEnds(field: string, rest: string)
    requires SPACE !in field
    requires rest == [] || rest[0] == SPACE
    ensures Split(field + rest, SPACE)[0] == field
  {
    SplitPrefix(field, rest, SPACE);
    if rest != [] {
      assert Split(rest, SPACE)[0] == "";
    }
    assert field + "" == field;
  }

  /**
   * The token is the second space-separated field, whatever the first one
   * says and whatever follows: "Bearer t", "Token t" and "Bearer t x" all
   * yield t.
   */
  lemma {:induction false} TokenAfterAnyScheme(scheme: string, token: string, rest: string)
    requires SPACE !in scheme && SPACE !in token && token != ""
    requires rest == [] || rest[0] == SPACE
    ensures BearerToken(Some(scheme + [SPACE] + token + rest)) == Some(token)
  {
    assert scheme + [SPACE] + token + rest == scheme + [SPACE] + (token + rest);
    SecondField(scheme, token + rest);
    FieldEnds(token, rest);
  }

  /**
   * An empty second field ("Bearer ", "Bearer  t") is falsy: 401, and
   * `verify` is never asked.
   */
  lemma {:induction false} EmptySecondFieldIsUnauthorized(scheme: string, rest: string, verify: string -> Option<Claims>)
    requires SPACE !in scheme
    requires rest == [] || rest[0] == SPACE
    ensures Authenticate(Some(scheme + [SPACE] + rest), verify) == Unauthorized
  {
    SecondField(scheme, rest);
    FieldEnds("", rest);
    assert "" + rest == rest;
  }

  /** A header with no space in it never reaches `verify`. */
  lemma {:induction false} NoSecondFieldIsUnauthorized(header: string, verify: string -> Option<Claims>)
    requires SPACE !in header
    ensures Authenticate(Some(header), verify) == Unauthorized
  {
    SplitPrefix(header, "", SPACE);
    assert header + "" == header;
  }
}
