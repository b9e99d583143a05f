/**
 * One-time login codes of utils/storage.js: six-digit codes kept per
 * lower-cased e-mail address, valid for ten minutes, consumed on use.
 * This module holds the pure part (the code table as a value); the file that
 * stores it is in module Storage.
 */
module Otp {
  import opened Text

  /** `{ code, expiresAt }` as stored under `codes[email.toLowerCase()]`. */
  datatype OtpRecord = OtpRecord(code: string, expiresAt: int)

  type CodeTable = map<string, OtpRecord>

  /** `10 * 60 * 1000` milliseconds. */
  const OTP_TTL_MS: int := 10 * 60 * 1000

  /** A login code as the service issues it: six decimal digits, the first not zero. */
  predicate IsOtpCode(s: string)
  {
    |s| == 6 && AllDigits(s) && s[0] != '0'
  }

  /**
   * `Math.floor(100000 + Math.random() * 900000).toString()`, with the value
   * drawn by `Math.random()` passed in as `random`.
   */
  function GenerateOtpCode(random: real): (code: string)
    requires 0.0 <= random < 1.0
    ensures IsOtpCode(code)
    ensures 100000 <= DecimalValue(code) <= 999999
  {
    var x := 100000.0 + random * 900000.0;
    assert 100000.0 <= x < 1000000.0 by {
      assert 0.0 <= random * 900000.0 < 900000.0;
    }
    var n: nat := x.Floor;
    assert Pow10(5) == 100000 && Pow10(6) == 1000000;
    DecimalLength(n, 6);
    DecimalRoundTrip(n);
    DecimalString(n)
  }

  /** `storeOTPCode(email, code)` on the table: the new code replaces any earlier one. */
  function Issue(codes: CodeTable, email: string, code: string, now: int): (r: CodeTable)
    ensures Lower(email) in r && r[Lower(email)] == OtpRecord(code, now + OTP_TTL_MS)
    ensures forall k :: k != Lower(email) ==> (k in r <==> k in codes)
    ensures forall k :: k in codes && k != Lower(email) ==> r[k] == codes[k]
  {
    codes[Lower(email) := OtpRecord(code, now + OTP_TTL_MS)]
  }

  /** The four ways `verifyOTPCode` can end. */
  datatype Check = NoCode | Expired | WrongCode | Matched

  /**
   * The branch `verifyOTPCode(email, code)` takes at time `now`. Expiry is
   * strict: a code is still good at exactly `expiresAt`.
   */
  function CheckCode(codes: CodeTable, email: string, code: string, now: int): (c: Check)
    ensures c == NoCode <==> Lower(email) !in codes
    ensures c == Matched <==>
              Lower(email) in codes && now <= codes[Lower(email)].expiresAt && codes[Lower(email)].code == code
  {
    var key := Lower(email);
    if key !in codes then NoCode
    else if now > codes[key].expiresAt then Expired
    else if codes[key].code != code then WrongCode
    else Matched
  }

  /** Whether the branch deletes the pending record (and so rewrites the file). */
  predicate Consumes(c: Check)
  {
    c == Expired || c == Matched
  }

  /** The table after `verifyOTPCode(email, code)` at time `now`. */
  function AfterCheck(codes: CodeTable, email: string, code: string, now: int): (r: CodeTable)
    // an expired or matched record is deleted; a wrong code or no code leaves the table alone
    ensures Consumes(CheckCode(codes, email, code, now)) <==> Lower(email) in codes && Lower(email) !in r
    ensures !Consumes(CheckCode(codes, email, code, now)) ==> r == codes
    // no other identity's record changes
    ensures forall k :: k != Lower(email) ==> (k in r <==> k in codes)
    ensures forall k :: k in r ==> k in codes && r[k] == codes[k]
  {
    if Consumes(CheckCode(codes, email, code, now)) then codes - {Lower(email)} else codes
  }

  /** A freshly issued code is accepted for the same identity up to and including its expiry instant. */
  lemma IssueThenVerify(codes: CodeTable, email: string, asTyped: string, code: string, issuedAt: int, now: int)
    requires SameEmail(email, asTyped) && now <= issuedAt + OTP_TTL_MS
    ensures CheckCode(Issue(codes, email, code, issuedAt), asTyped, code, now) == Matched
  {
  }

  /** Single use: once a code matched, the next verification for that identity finds nothing. */
  lemma SingleUse(codes: CodeTable, email: string, code: string, now: int,
                  asTyped: string, again: string, later: int)
    requires CheckCode(codes, email, code, now) == Matched && SameEmail(email, asTyped)
    ensures CheckCode(AfterCheck(codes, email, code, now), asTyped, again, later) == NoCode
  {
  }

  /** After expiry every code is refused, the right one included, and the record is gone. */
  lemma ExpiredRefusesAll(codes: CodeTable, email: string, code: string, now: int)
    requires Lower(email) in codes && now > codes[Lower(email)].expiresAt
    ensures CheckCode(codes, email, code, now) == Expired
    ensures Lower(email) !in AfterCheck(codes, email, code, now)
  {
  }

  /** A wrong code is refused and the pending record stays for further attempts. */
  lemma WrongCodeKeepsRecord(codes: CodeTable, email: string, code: string, now: int)
    requires Lower(email) in codes && now <= codes[Lower(email)].expiresAt
    requires codes[Lower(email)].code != code
    ensures CheckCode(codes, email, code, now) == WrongCode
    ensures AfterCheck(codes, email, code, now) == codes
  {
  }

  /** Issuing a new code invalidates the previous one: only the newest code can match. */
  lemma ReissueInvalidates(codes: CodeTable, email: string, newCode: string, issuedAt: int,
                           tried: string, now: int)
    requires CheckCode(Issue(codes, email, newCode, issuedAt), email, tried, now) == Matched
    ensures tried == newCode
  {
  }

  /** Issuing or consuming a code for one identity does not affect another. */
  lemma OtherIdentityUnaffected(codes: CodeTable, email: string, newCode: string, issuedAt: int,
                                presented: string, at: int, other: string, tried: string, now: int)
    requires !SameEmail(email, other)
    ensures CheckCode(Issue(codes, email, newCode, issuedAt), other, tried, now)
         == CheckCode(codes, other, tried, now)
    ensures CheckCode(AfterCheck(codes, email, presented, at), other, tried, now)
         == CheckCode(codes, other, tried, now)
  {
  }

  /**
   * A worked run: code "482913" issued for "a@b.com" at time t is accepted
   * five seconds later for "A@B.com", refused when presented again, and a
   * code presented 601 seconds after issue is refused as expired.
   */
  lemma WorkedExample(codes: CodeTable, t: int)
    ensures var issued := Issue(codes, "a@b.com", "482913", t);
            && CheckCode(issued, "A@B.com", "482913", t + 5000) == Matched
            && CheckCode(AfterCheck(issued, "A@B.com", "482913", t + 5000), "a@b.com", "482913", t + 5001) == NoCode
            && CheckCode(issued, "a@b.com", "482913", t + 601000) == Expired
  {
  }
}
