/**
 * routes/webhook.js: the `POST /webhook/stripe` handler. Signature checking
 * (`stripe.webhooks.constructEvent`) is an oracle whose result is passed in;
 * the handler decides, per event type, whether an entitlement is granted.
 */
module Webhook {
  import opened Wrappers
  import opened Ledger
  import opened Storage

  const CHECKOUT_SESSION_COMPLETED: string := "checkout.session.completed"

  /** The fields of a Checkout Session object the handler reads. */
  datatype Session = Session(id: string, metadataEmail: Option<string>, customerEmail: Option<string>)

  /** A verified Stripe event: its `type` and its `data.object`. */
  datatype Event = Event(eventType: string, session: Session)

  /** `session.metadata?.email || session.customer_email`: the metadata address unless it is absent or empty. */
  function SessionEmail(s: Session): (email: Option<string>)
    ensures Truthy(s.metadataEmail) ==> email == s.metadataEmail
    ensures !Truthy(s.metadataEmail) ==> email == s.customerEmail
  {
    if Truthy(s.metadataEmail) then s.metadataEmail else s.customerEmail
  }

  /** What the checkout branch does with a session. */
  datatype Decision = MissingEmail | InvalidEmail | GrantTo(email: string)

  /** The email checks of the checkout branch: present (truthy), then containing '@'. */
  function Decide(s: Session): (d: Decision)
    ensures d == MissingEmail <==> !Truthy(SessionEmail(s))
    ensures d.GrantTo? <==> SessionEmail(s).Some? && '@' in SessionEmail(s).value
    ensures d.GrantTo? ==> Some(d.email) == SessionEmail(s)
  {
    var email := SessionEmail(s);
    if !Truthy(email) then MissingEmail
    else if '@' !in email.value then InvalidEmail
    else GrantTo(email.value)
  }

  /** The JSON responses of the handler. */
  datatype Reply =
    | Ack(eventType: string)            // 200 { received: true, eventType }
    | AckWarning(warning: string)       // 200 { received: true, warning }
    | AckError(error: string)           // 200 { received: true, error }
    | Refused(status: int, error: string)

  function Status(r: Reply): int
  {
    if r.Refused? then r.status else 200
  }

  /**
   * The `/stripe` handler. `constructed` is what `constructEvent` returned
   * (None when it threw); `writeOk` is whether the entitlements file write
   * succeeds. `confirmationTo` is the address the confirmation e-mail is
   * started for; its delivery is not awaited and cannot affect the reply.
   */
  method HandleStripeWebhook(store: Store, webhookSecret: Option<string>, constructed: Option<Event>,
                             now: int, writeOk: bool)
    returns (reply: Reply, confirmationTo: Option<string>)
    modifies store
    ensures store.otpFile == old(store.otpFile)
    ensures IsPrefix(old(store.PremiumUsers()), store.PremiumUsers())
    // configuration and signature are checked before any store access
    ensures !Truthy(webhookSecret) ==> reply == Refused(500, "Missing webhook configuration")
    ensures Truthy(webhookSecret) && constructed.None? ==> reply == Refused(400, "Webhook Error")
    ensures Status(reply) == 200 <==> Truthy(webhookSecret) && constructed.Some?
    ensures reply.Refused? ==> store.entitlementsFile == old(store.entitlementsFile)
    // other event types, refunds included, never touch the entitlements
    ensures Status(reply) == 200 && constructed.value.eventType != CHECKOUT_SESSION_COMPLETED ==>
              reply == Ack(constructed.value.eventType)
              && store.entitlementsFile == old(store.entitlementsFile) && confirmationTo == None
    // checkout.session.completed
    ensures Status(reply) == 200 && constructed.value.eventType == CHECKOUT_SESSION_COMPLETED ==>
              var ev := constructed.value;
              match Decide(ev.session)
              case MissingEmail =>
                reply == AckWarning("Missing email")
                && store.entitlementsFile == old(store.entitlementsFile) && confirmationTo == None
              case InvalidEmail =>
                reply == AckWarning("Invalid email")
                && store.entitlementsFile == old(store.entitlementsFile) && confirmationTo == None
              case GrantTo(email) =>
                if IsPremium(old(store.PremiumUsers()), email) || writeOk then
                  reply == Ack(ev.eventType) && confirmationTo == Some(email)
                  && store.PremiumUsers() == Grant(old(store.PremiumUsers()), email, now, Some(ev.session.id))
                else
                  reply == AckError("Premium activation failed")
                  && store.entitlementsFile == old(store.entitlementsFile) && confirmationTo == None
    // the confirmation e-mail is only started once the grant is stored
    ensures confirmationTo.Some? ==> IsPremium(store.PremiumUsers(), confirmationTo.value)
  {
    confirmationTo := None;
    if !Truthy(webhookSecret) {
      return Refused(500, "Missing webhook configuration"), None;
    }
    if constructed.None? {
      return Refused(400, "Webhook Error"), None;
    }
    var event := constructed.value;
    if event.eventType == CHECKOUT_SESSION_COMPLETED {
      var session := event.session;
      var decision := Decide(session);
      match decision {
        case MissingEmail =>
          return AckWarning("Missing email"), None;
        case InvalidEmail =>
          return AckWarning("Invalid email"), None;
        case GrantTo(email) =>
          var ok := store.AddPremiumUser(email, Some(session.id), now, writeOk);
          if !ok {
            return AckError("Premium activation failed"), None;
          }
          confirmationTo := Some(email);
      }
    }
    // "payment_intent.succeeded", "payment_intent.payment_failed",
    // "charge.refunded" and unknown types only log: no revocation on refund
    reply := Ack(event.eventType);
  }

  /**
   * Stripe delivering the same completed checkout twice: both deliveries are
   * acknowledged and the ledger holds the first delivery's grant only. The
   * second delivery needs no write, so it succeeds even when the disk fails.
   */
  method DeliverTwice(store: Store, webhookSecret: Option<string>, event: Event,
                      firstAt: int, secondAt: int, secondWriteOk: bool)
    returns (first: Reply, second: Reply)
    requires Truthy(webhookSecret) && event.eventType == CHECKOUT_SESSION_COMPLETED
    requires Decide(event.session).GrantTo?
    modifies store
    ensures first == Ack(event.eventType) && second == Ack(event.eventType)
    ensures store.PremiumUsers()
         == Grant(old(store.PremiumUsers()), Decide(event.session).email, firstAt, Some(event.session.id))
  {
    var email := Decide(event.session).email;
    var sent1, sent2;
    first, sent1 := HandleStripeWebhook(store, webhookSecret, Some(event), firstAt, true);
    ghost var middle := store.PremiumUsers();
    assert IsPremium(middle, email);
    second, sent2 := HandleStripeWebhook(store, webhookSecret, Some(event), secondAt, secondWriteOk);
  }
}
