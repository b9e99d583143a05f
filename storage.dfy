/**
 * utils/storage.js: the two JSON files (entitlements and pending login codes)
 * and the read-modify-write operations over them. Each file is modelled by
 * what a read of it finds; a write is given as an oracle `writeOk` that says
 * whether `fs.writeFile` succeeds.
 */
module Storage {
  import opened Wrappers
  import opened Text
  import opened Ledger
  import opened Otp

  /** What reading a storage file finds: nothing, unparsable text, or a parsed JSON document. */
  datatype FileState<T> = Missing | Corrupt | Parsed(value: T)

  /** Outcome of an operation that may throw because the file write failed. */
  datatype Result<T> = Ok(value: T) | WriteError

  /** `readEntitlements()`: an unreadable or corrupt file reads as `{ premiumUsers: [] }`. */
  function ReadEntitlements(f: FileState<seq<Entry>>): (users: seq<Entry>)
    ensures f.Parsed? ==> users == f.value
    ensures !f.Parsed? ==> users == []
  {
    if f.Parsed? then f.value else []
  }

  /** `readOTPCodes()`: an unreadable or corrupt file reads as `{ codes: {} }`. */
  function ReadOtpCodes(f: FileState<CodeTable>): (codes: CodeTable)
    ensures f.Parsed? ==> codes == f.value
    ensures !f.Parsed? ==> codes == map[]
  {
    if f.Parsed? then f.value else map[]
  }

  /** `before` is a prefix of `after`: records are only ever appended. */
  predicate IsPrefix(before: seq<Entry>, after: seq<Entry>)
  {
    |before| <= |after| && after[..|before|] == before
  }

  class Store {
    var entitlementsFile: FileState<seq<Entry>>
    var otpFile: FileState<CodeTable>

    /** The premium users every read of the entitlements file sees. */
    function PremiumUsers(): seq<Entry>
      reads this
    {
      ReadEntitlements(entitlementsFile)
    }

    /** The pending codes every read of the code file sees. */
    function Codes(): CodeTable
      reads this
    {
      ReadOtpCodes(otpFile)
    }

    /** The store over the files as they are found on disk. */
    constructor (entitlements: FileState<seq<Entry>>, otp: FileState<CodeTable>)
      ensures entitlementsFile == entitlements && otpFile == otp
    {
      entitlementsFile := entitlements;
      otpFile := otp;
    }

    /** `initStorage()`: a file that does not exist is created empty; an existing one is left alone. */
    method InitStorage()
      modifies this
      ensures entitlementsFile == if old(entitlementsFile).Missing? then Parsed([]) else old(entitlementsFile)
      ensures otpFile == if old(otpFile).Missing? then Parsed(map[]) else old(otpFile)
      ensures PremiumUsers() == old(PremiumUsers()) && Codes() == old(Codes())
    {
      if entitlementsFile.Missing? {
        entitlementsFile := Parsed([]);
      }
      if otpFile.Missing? {
        otpFile := Parsed(map[]);
      }
    }

    /** `isPremiumUser(email)`: reads the list and looks the identity up ignoring case. */
    method IsPremiumUser(email: string) returns (r: bool)
      ensures r == IsPremium(PremiumUsers(), email)
    {
      var users := ReadEntitlements(entitlementsFile);
      assert users == PremiumUsers();
      r := IsPremium(users, email);
    }

    /**
     * `addPremiumUser(email, stripeSessionId)`. An identity already present is
     * a no-op with no write; otherwise the lower-cased record is pushed and the
     * list written back. `ok` is false exactly when that write throws.
     */
    method AddPremiumUser(email: string, stripeSessionId: Option<string>, now: int, writeOk: bool)
      returns (ok: bool)
      modifies this
      ensures otpFile == old(otpFile)
      ensures ok <==> IsPremium(old(PremiumUsers()), email) || writeOk
      ensures entitlementsFile ==
                if IsPremium(old(PremiumUsers()), email) || !writeOk then old(entitlementsFile)
                else Parsed(Grant(old(PremiumUsers()), email, now, stripeSessionId))
      ensures ok ==> PremiumUsers() == Grant(old(PremiumUsers()), email, now, stripeSessionId)
      ensures ok ==> IsPremium(PremiumUsers(), email)
      ensures IsPrefix(old(PremiumUsers()), PremiumUsers())
    {
      var users := ReadEntitlements(entitlementsFile);
      var present := IsPremium(users, email);
      if !present {
        users := users + [Entry(Lower(email), now, stripeSessionId)];
        if !writeOk {
          return false;
        }
        entitlementsFile := Parsed(users);
      }
      ok := true;
    }

    /**
     * `storeOTPCode(email, code)`: `codes[lower(email)] = { code, now + 10 min }`
     * and the table written back. `ok` is false exactly when the write throws.
     */
    method StoreOtpCode(email: string, code: string, now: int, writeOk: bool) returns (ok: bool)
      modifies this
      ensures entitlementsFile == old(entitlementsFile)
      ensures ok == writeOk
      ensures otpFile == if writeOk then Parsed(Issue(old(Codes()), email, code, now)) else old(otpFile)
    {
      var codes := ReadOtpCodes(otpFile);
      codes := codes[Lower(email) := OtpRecord(code, now + OTP_TTL_MS)];
      if !writeOk {
        return false;
      }
      otpFile := Parsed(codes);
      ok := true;
    }

    /**
     * `verifyOTPCode(email, code)` at time `now`: true only for a matching,
     * unexpired code, which is deleted; an expired record is deleted and
     * refused; a wrong code is refused and the record kept. Only a deleting
     * branch writes the file, and only such a write can throw.
     */
    method VerifyOtpCode(email: string, code: string, now: int, writeOk: bool) returns (r: Result<bool>)
      modifies this
      ensures entitlementsFile == old(entitlementsFile)
      ensures var c := CheckCode(old(Codes()), email, code, now);
              r == if Consumes(c) && !writeOk then WriteError else Ok(c == Matched)
      ensures var c := CheckCode(old(Codes()), email, code, now);
              otpFile == if Consumes(c) && writeOk then Parsed(AfterCheck(old(Codes()), email, code, now)) else old(otpFile)
      ensures r == Ok(true) ==> Lower(email) in old(Codes()) && old(Codes())[Lower(email)].code == code
                                && now <= old(Codes())[Lower(email)].expiresAt
                                && Lower(email) !in Codes()
    {
      var codes := ReadOtpCodes(otpFile);
      var key := Lower(email);
      if key !in codes {
        return Ok(false);
      }
      var stored := codes[key];
      if now > stored.expiresAt {
        codes := codes - {key};
        if !writeOk {
          return WriteError;
        }
        otpFile := Parsed(codes);
        return Ok(false);
      }
      if stored.code != code {
        return Ok(false);
      }
      codes := codes - {key};
      if !writeOk {
        return WriteError;
      }
      otpFile := Parsed(codes);
      return Ok(true);
    }
  }
}
