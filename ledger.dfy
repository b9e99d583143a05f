/**
 * The entitlement ledger of utils/storage.js: the list of premium users kept in
 * the entitlements file, looked up and extended case-insensitively.
 */
module Ledger {
  import opened Wrappers
  import opened Text

  /** One premium user record: `{ email, activatedAt, stripeSessionId }`. */
  datatype Entry = Entry(email: string, activatedAt: int, stripeSessionId: Option<string>)

  /** `premiumUsers.some(user => user.email.toLowerCase() === email.toLowerCase())`. */
  function IsPremium(users: seq<Entry>, email: string): (r: bool)
    ensures r <==> exists i :: 0 <= i < |users| && SameEmail(users[i].email, email)
  {
    if |users| == 0 then false
    else SameEmail(users[0].email, email) || IsPremium(users[1..], email)
  }

  /**
   * `addPremiumUser(email, stripeSessionId)` on the list read from the file:
   * a no-op when the identity is already present, otherwise one new record,
   * stored under the lower-cased address, appended at the end.
   */
  function Grant(users: seq<Entry>, email: string, now: int, stripeSessionId: Option<string>): (r: seq<Entry>)
    // idempotent: an identity already present leaves the list as it was
    ensures IsPremium(users, email) ==> r == users
    // the list only grows, by at most one record, and earlier records are kept
    ensures |users| <= |r| <= |users| + 1 && r[..|users|] == users
    ensures |r| == |users| + 1 <==> !IsPremium(users, email)
    ensures |r| == |users| + 1 ==> r[|users|] == Entry(Lower(email), now, stripeSessionId)
    // afterwards exactly the identities before and this one are premium
    ensures forall e :: IsPremium(r, e) <==> IsPremium(users, e) || SameEmail(e, email)
  {
    LowerIdempotent(email);
    if IsPremium(users, email) then users
    else
      var r := users + [Entry(Lower(email), now, stripeSessionId)];
      assert r[|users|].email == Lower(email);
      r
  }

  /** No two records name the same identity. */
  predicate Unique(users: seq<Entry>)
  {
    forall i, j :: 0 <= i < j < |users| ==> !SameEmail(users[i].email, users[j].email)
  }

  /** Granting keeps the list free of duplicate identities. */
  lemma GrantKeepsUnique(users: seq<Entry>, email: string, now: int, stripeSessionId: Option<string>)
    requires Unique(users)
    ensures Unique(Grant(users, email, now, stripeSessionId))
  {
  }

  /** One call of `addPremiumUser(email, stripeSessionId)` at time `now`. */
  datatype GrantRequest = GrantRequest(email: string, now: int, stripeSessionId: Option<string>)

  /** A sequence of `addPremiumUser` calls applied in order. */
  function GrantAll(users: seq<Entry>, calls: seq<GrantRequest>): seq<Entry>
    decreases |calls|
  {
    if |calls| == 0 then users
    else GrantAll(Grant(users, calls[0].email, calls[0].now, calls[0].stripeSessionId), calls[1..])
  }

  /** Calls for an identity that is already present change nothing. */
  lemma {:induction false} GrantAllPresent(users: seq<Entry>, email: string, calls: seq<GrantRequest>)
    requires IsPremium(users, email)
    requires forall k :: 0 <= k < |calls| ==> SameEmail(calls[k].email, email)
    ensures GrantAll(users, calls) == users
  {
    if |calls| > 0 {
      assert IsPremium(users, calls[0].email);
      GrantAllPresent(users, email, calls[1..]);
    }
  }

  /**
   * N >= 1 calls for one identity (spelled in any case) that was not yet
   * present leave exactly one new record: the first call's, with its
   * activation time and session id.
   */
  lemma {:induction false} GrantRepeated(users: seq<Entry>, calls: seq<GrantRequest>)
    requires |calls| >= 1 && !IsPremium(users, calls[0].email)
    requires forall k :: 0 <= k < |calls| ==> SameEmail(calls[k].email, calls[0].email)
    ensures GrantAll(users, calls)
         == users + [Entry(Lower(calls[0].email), calls[0].now, calls[0].stripeSessionId)]
    ensures forall i :: 0 <= i < |GrantAll(users, calls)| && SameEmail(GrantAll(users, calls)[i].email, calls[0].email)
               ==> i == |users|
  {
    var c := calls[0];
    var once := Grant(users, c.email, c.now, c.stripeSessionId);
    assert GrantAll(users, calls) == GrantAll(once, calls[1..]);
    GrantAllPresent(once, c.email, calls[1..]);
    forall i | 0 <= i < |users|
      ensures !SameEmail(once[i].email, c.email)
    {
      assert once[i] == users[i];
    }
  }

  /** Nothing is ever removed: every sequence of calls keeps the old list as a prefix. */
  lemma {:induction false} GrantAllGrows(users: seq<Entry>, calls: seq<GrantRequest>)
    ensures |users| <= |GrantAll(users, calls)| && GrantAll(users, calls)[..|users|] == users
    ensures forall e :: IsPremium(users, e) ==> IsPremium(GrantAll(users, calls), e)
    decreases |calls|
  {
    if |calls| > 0 {
      var c := calls[0];
      var once := Grant(users, c.email, c.now, c.stripeSessionId);
      GrantAllGrows(once, calls[1..]);
      assert GrantAll(users, calls)[..|users|] == GrantAll(once, calls[1..])[..|once|][..|users|];
    }
  }
}
