/**
 * routes/auth.js: the `/auth/request-otp`, `/auth/login` and `/auth/check`
 * handlers as outcome-returning operations over the store. Sending the code
 * by e-mail is an oracle (`sendOk`, the boolean `sendOTPEmail` resolves to);
 * token signing is a function passed in.
 */
module AuthRoutes {
  import opened Wrappers
  import opened Text
  import opened Ledger
  import opened Otp
  import opened Storage

  /** The JSON responses of the three handlers. */
  datatype AuthReply =
    | OtpSent                                       // 200 { success, message }
    | LoggedIn(token: string, email: string)        // 200 { success, token, email }
    | PremiumStatus(email: string, hasPremium: bool) // 200 { email, hasPremium }
    | Error(status: int, error: string)

  /** `!email || !email.includes('@')` fails: the address is present and contains '@'. */
  predicate AcceptableEmail(email: Option<string>)
  {
    email.Some? && '@' in email.value
  }

  /**
   * `POST /auth/request-otp`. The code is stored before it is sent; when the
   * store write throws the reply is a 500 and nothing is sent; when sending
   * fails the reply is a 500 but the stored code remains.
   */
  method RequestOtp(store: Store, email: Option<string>, random: real, now: int,
                    writeOk: bool, sendOk: bool)
    returns (reply: AuthReply, mailed: Option<string>)
    requires 0.0 <= random < 1.0
    modifies store
    ensures store.entitlementsFile == old(store.entitlementsFile)
    ensures !AcceptableEmail(email) ==>
              reply == Error(400, "Invalid email") && store.otpFile == old(store.otpFile) && mailed == None
    ensures AcceptableEmail(email) && !writeOk ==>
              reply == Error(500, "Server error") && store.otpFile == old(store.otpFile) && mailed == None
    ensures AcceptableEmail(email) && writeOk ==>
              var code := GenerateOtpCode(random);
              && mailed == Some(code)
              && store.Codes() == Issue(old(store.Codes()), email.value, code, now)
              && reply == (if sendOk then OtpSent else Error(500, "Failed to send email"))
    ensures mailed.Some? ==> IsOtpCode(mailed.value)
  {
    if !AcceptableEmail(email) {
      return Error(400, "Invalid email"), None;
    }
    var code := GenerateOtpCode(random);
    var stored := store.StoreOtpCode(email.value, code, now, writeOk);
    if !stored {
      return Error(500, "Server error"), None;
    }
    mailed := Some(code);
    if !sendOk {
      return Error(500, "Failed to send email"), mailed;
    }
    reply := OtpSent;
  }

  /**
   * `POST /auth/login`. A token is issued only when the code verifies and the
   * identity is premium. The code is consumed by verification, so a valid
   * code for a non-premium identity is spent although the reply is a 403.
   */
  method Login(store: Store, email: Option<string>, code: Option<string>, now: int,
               writeOk: bool, sign: string -> string)
    returns (reply: AuthReply)
    modifies store
    ensures store.entitlementsFile == old(store.entitlementsFile)
    ensures !Truthy(email) || !Truthy(code) ==>
              reply == Error(400, "Email and code required") && store.otpFile == old(store.otpFile)
    ensures Truthy(email) && Truthy(code) ==>
              var c := CheckCode(old(store.Codes()), email.value, code.value, now);
              && (if Consumes(c) && writeOk then store.Codes() == AfterCheck(old(store.Codes()), email.value, code.value, now)
                  else store.otpFile == old(store.otpFile))
              && reply == (if Consumes(c) && !writeOk then Error(500, "Server error")
                           else if c != Matched then Error(401, "Invalid or expired code")
                           else if !IsPremium(store.PremiumUsers(), email.value)
                             then Error(403, "Premium access required")
                           else LoggedIn(sign(email.value), email.value))
    ensures reply.LoggedIn? ==>
              && email.Some? && code.Some? && reply == LoggedIn(sign(email.value), email.value)
              && CheckCode(old(store.Codes()), email.value, code.value, now) == Matched
              && IsPremium(store.PremiumUsers(), email.value)
              && Lower(email.value) !in store.Codes()
    ensures reply == Error(403, "Premium access required") ==>
              && email.Some? && code.Some?
              && CheckCode(old(store.Codes()), email.value, code.value, now) == Matched
              && Lower(email.value) !in store.Codes()
  {
    if !Truthy(email) || !Truthy(code) {
      return Error(400, "Email and code required");
    }
    var valid := store.VerifyOtpCode(email.value, code.value, now, writeOk);
    if valid.WriteError? {
      return Error(500, "Server error");
    }
    if !valid.value {
      return Error(401, "Invalid or expired code");
    }
    var hasPremium := store.IsPremiumUser(email.value);
    if !hasPremium {
      return Error(403, "Premium access required");
    }
    var token := sign(email.value);
    reply := LoggedIn(token, email.value);
  }

  /** `GET /auth/check`: the premium status of an address; changes nothing. */
  method Check(store: Store, email: Option<string>) returns (reply: AuthReply)
    ensures !Truthy(email) ==> reply == Error(400, "Email required")
    ensures Truthy(email) ==> reply.PremiumStatus? && reply.email == email.value
    ensures reply.PremiumStatus? ==>
              (reply.hasPremium <==>
                 exists i :: 0 <= i < |store.PremiumUsers()| && SameEmail(store.PremiumUsers()[i].email, email.value))
  {
    if !Truthy(email) {
      return Error(400, "Email required");
    }
    var hasPremium := store.IsPremiumUser(email.value);
    reply := PremiumStatus(email.value, hasPremium);
  }
}
