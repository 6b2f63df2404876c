/** `authMiddleware` of middleware/authMiddleware.js: the gate in front of every
    protected route. JWT verification (RFC 7519) is the partial function
    `verify`; `None` stands for any error the library reports. The gate never
    reads the store: it has no store to read. */
module AuthMiddleware {
  import opened Wrappers
  import opened Crypto
  import opened Strings

  /** The gate's decision: answer 401, or call `next` once with `req.user` set. */
  datatype Gate = Rejected | Next(user: Claims)

  /** `authHeader.split(" ")[1]`: the second space-separated field, or `None`
      (JavaScript's `undefined`) when the header holds no space. The first field
      is never compared with "Bearer". */
  function BearerToken(header: string): (t: Option<string>)
    ensures t.Some? <==> ' ' in header
    ensures t.Some? ==> ' ' !in t.value
  {
    SplitHasSecondPiece(header, ' ');
    var fields := Split(header, ' ');
    if |fields| >= 2 then Some(fields[1]) else None
  }

  /** The middleware on the raw `Authorization` header (`None` when it is null
      or undefined). `jwt.verify(undefined)` reports an error, so a header
      without a space is rejected like a bad token. */
  function Authenticate(header: Option<string>, verify: string -> Option<Claims>): (g: Gate)
    ensures header.None? ==> g == Rejected
    ensures g.Next? <==> header.Some? && BearerToken(header.value).Some? && verify(BearerToken(header.value).value).Some?
    ensures g.Next? ==> g.user == verify(BearerToken(header.value).value).value
  {
    match header
    case None => Rejected
    case Some(h) =>
      match BearerToken(h)
      case None => Rejected
      case Some(token) =>
        match verify(token)
        case None => Rejected
        case Some(claims) => Next(claims)
  }

  /** The scheme word before the first space plays no part: any two
      space-free words give the same token. */
  lemma SchemeWordIgnored(a: string, b: string, rest: string)
    requires ' ' !in a && ' ' !in b
    ensures BearerToken(a + " " + rest) == BearerToken(b + " " + rest)
    ensures BearerToken(a + " " + rest) == Some(Split(rest, ' ')[0])
  {
    SplitAfterWord(a, rest, ' ');
    SplitAfterWord(b, rest, ' ');
  }

  /** `<scheme> <token>` yields exactly the token when neither part holds a space. */
  lemma {:induction false} BearerTokenRoundTrip(scheme: string, token: string)
    requires ' ' !in scheme && ' ' !in token
    ensures BearerToken(scheme + " " + token) == Some(token)
  {
    SplitAfterWord(scheme, token, ' ');
    SplitWithoutSeparator(token, ' ');
  }

  /** A header carrying a token the verifier accepts lets the request through
      with the decoded claims, whatever word precedes the token. */
  lemma {:induction false} SignedTokenPasses(scheme: string, sign: Claims -> string,
                                             verify: string -> Option<Claims>, c: Claims)
    requires ' ' !in scheme
    requires SignsAndVerifies(sign, verify, c)
    ensures Authenticate(Some(scheme + " " + sign(c)), verify) == Next(c)
  {
    BearerTokenRoundTrip(scheme, sign(c));
  }
}
