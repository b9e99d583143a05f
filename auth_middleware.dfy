/**
 * middleware/auth.js: `authenticateToken` (Bearer token from the
 * Authorization header, checked by `verifyToken`) and `requirePremium`.
 * Token verification is a function passed in; calling `next` is the `Next`
 * outcome, an early response is `Deny`.
 */
module AuthMiddleware {
  import opened Wrappers
  import opened Text
  import opened Ledger
  import opened Storage

  /** The payload `verifyToken` decodes; `email` may be missing from it. */
  datatype Claims = Claims(email: Option<string>)

  /** What a middleware does: call `next()` once, or respond and stop. */
  datatype Gate = Next | Deny(status: int, error: string)

  /** The request object the middlewares share; `authenticateToken` sets `userEmail`. */
  class Request {
    var userEmail: Option<string>

    constructor ()
      ensures userEmail == None
    {
      userEmail := None;
    }
  }

  /**
   * `authHeader && authHeader.split(' ')[1]`: the second space-separated
   * segment of the header. The first segment (the scheme) is never looked at.
   */
  function BearerToken(header: Option<string>): (token: Option<string>)
    ensures token.Some? ==> Truthy(header) && ' ' !in token.value && |Split(header.value)| >= 2
    ensures token.Some? ==> token.value == Split(header.value)[1]
    ensures Truthy(header) && |Split(header.value)| >= 2 ==> token.Some?
  {
    if !Truthy(header) then None
    else
      var parts := Split(header.value);
      if |parts| >= 2 then Some(parts[1]) else None
  }

  /** Whatever the first word, `<word> <token>` yields `token`. */
  lemma {:induction false} SchemeIgnored(scheme: string, token: string)
    requires ' ' !in scheme && ' ' !in token
    ensures BearerToken(Some(scheme + " " + token)) == Some(token)
  {
    SplitAfterWord(scheme, token);
    SplitNoSpace(token);
    assert (scheme + " " + token)[|scheme|] == ' ';
  }

  /** A header with no space carries no token. */
  lemma {:induction false} NoSpaceNoToken(header: string)
    requires ' ' !in header
    ensures BearerToken(Some(header)) == None
  {
    SplitNoSpace(header);
  }

  /**
   * `authenticateToken`: 401 without a (non-empty) token, 403 when
   * `verifyToken` rejects it, otherwise `req.userEmail` is set from the
   * decoded payload and `next` is called.
   */
  method AuthenticateToken(req: Request, header: Option<string>, verify: string -> Option<Claims>)
    returns (g: Gate)
    modifies req
    ensures !Truthy(BearerToken(header)) ==>
              g == Deny(401, "Missing token") && req.userEmail == old(req.userEmail)
    ensures Truthy(BearerToken(header)) && verify(BearerToken(header).value).None? ==>
              g == Deny(403, "Invalid or expired token") && req.userEmail == old(req.userEmail)
    ensures g == Next <==> Truthy(BearerToken(header)) && verify(BearerToken(header).value).Some?
    ensures g == Next ==> req.userEmail == verify(BearerToken(header).value).value.email
  {
    var token := BearerToken(header);
    if !Truthy(token) {
      return Deny(401, "Missing token");
    }
    var decoded := verify(token.value);
    if decoded.None? {
      return Deny(403, "Invalid or expired token");
    }
    req.userEmail := decoded.value.email;
    g := Next;
  }

  /** `requirePremium`: 401 without an authenticated address, 403 unless it is premium. */
  method RequirePremium(req: Request, store: Store) returns (g: Gate)
    ensures !Truthy(req.userEmail) ==> g == Deny(401, "Authentication required")
    ensures Truthy(req.userEmail) && !IsPremium(store.PremiumUsers(), req.userEmail.value) ==>
              g == Deny(403, "Premium access required")
    ensures g == Next <==>
              Truthy(req.userEmail)
              && exists i :: 0 <= i < |store.PremiumUsers()|
                             && SameEmail(store.PremiumUsers()[i].email, req.userEmail.value)
  {
    var email := req.userEmail;
    if !Truthy(email) {
      return Deny(401, "Authentication required");
    }
    var hasPremium := store.IsPremiumUser(email.value);
    if !hasPremium {
      return Deny(403, "Premium access required");
    }
    g := Next;
  }
}
