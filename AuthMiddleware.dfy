/** The backend's `authenticate` middleware: it checks the `Authorization`
    header, extracts the bearer token and lets the request through with the
    decoded payload, or answers 401. Token verification is a parameter. */
module AuthMiddleware {
  import opened Wrappers
  import opened Strings

  const BearerPrefix := "Bearer "

  /** The header is present, non-empty and starts with "Bearer ". */
  predicate HasBearerHeader(header: Option<string>)
  {
    header.Some? && header.value != "" && StartsWith(header.value, BearerPrefix)
  }

  /** `authHeader.split(' ')[1]`: the run of non-space characters right after
      the prefix (empty when another space follows it). */
  function BearerToken(header: string): (t: string)
    requires StartsWith(header, BearerPrefix)
    ensures ' ' !in t
    ensures 7 + |t| <= |header| && header[7..7 + |t|] == t
    ensures 7 + |t| == |header| || header[7 + |t|] == ' '
  {
    var rest := header[7..];
    assert header == "Bearer" + [' '] + rest;
    SplitAfter("Bearer", ' ', rest);
    SplitFirstIsPrefix(rest, ' ');
    Split(header, ' ')[1]
  }

  /** "Bearer a b" yields the token "a". */
  lemma SecondSegmentOnly()
    ensures BearerToken("Bearer a b") == "a"
  {
    var t := BearerToken("Bearer a b");
    assert "Bearer a b"[7] == 'a' && "Bearer a b"[8] == ' ';
  }

  /** A token without spaces comes back out of the header built from it. */
  lemma BearerTokenOf(token: string)
    requires ' ' !in token
    ensures StartsWith(BearerPrefix + token, BearerPrefix)
    ensures BearerToken(BearerPrefix + token) == token
  {
    var header := BearerPrefix + token;
    assert header[..7] == BearerPrefix;
    assert header == "Bearer" + [' '] + token;
    SplitAfter("Bearer", ' ', token);
    SplitNoSeparator(token, ' ');
  }

  /** What the middleware decides. */
  datatype Decision<P> = Reject(status: int, message: string) | Proceed(user: P)

  /** `verify` gives the decoded payload, or `None` where `verifyToken` throws. */
  function Decide<P>(header: Option<string>, verify: string -> Option<P>): (r: Decision<P>)
    ensures !HasBearerHeader(header) <==> r == Reject(401, "Authentication required")
    ensures HasBearerHeader(header) && verify(BearerToken(header.value)).None? <==>
      r == Reject(401, "Invalid or expired token")
    ensures r.Proceed? ==>
      HasBearerHeader(header) && verify(BearerToken(header.value)) == Some(r.user)
  {
    if !HasBearerHeader(header) then Reject(401, "Authentication required")
    else match verify(BearerToken(header.value))
      case None => Reject(401, "Invalid or expired token")
      case Some(p) => Proceed(p)
  }

  /** The request and response objects as the middleware sees them: `user`
      is `req.user`, `nextCalls` counts calls of `next`, `sent` is the status
      and message of a response sent with `res.status(..).json(..)`. */
  class Exchange<P> {
    var user: Option<P>
    var nextCalls: nat
    var sent: Option<(int, string)>

    constructor ()
      ensures user == None && nextCalls == 0 && sent == None
    {
      user := None;
      nextCalls := 0;
      sent := None;
    }

    method Authenticate(header: Option<string>, verify: string -> Option<P>)
      modifies this
      ensures Decide(header, verify).Reject? ==>
        sent == Some((Decide(header, verify).status, Decide(header, verify).message)) &&
        nextCalls == old(nextCalls) && user == old(user)
      ensures Decide(header, verify).Proceed? ==>
        user == Some(Decide(header, verify).user) &&
        nextCalls == old(nextCalls) + 1 && sent == old(sent)
    {
      match Decide(header, verify)
      case Reject(status, message) =>
        sent := Some((status, message));
      case Proceed(p) =>
        user := Some(p);
        nextCalls := nextCalls + 1;
    }
  }
}
