/** `SESNotificationHandler`: SES event messages delivered through SNS. The
    handler keeps the last parsed message in a one-message slot that
    `handle(stream)` empties when it returns it. */
module SesNotification {

  import opened Wrappers
  import opened Resolvers

  /** The SES event types the handler tells apart; every other type, and a
      missing one, yields no addresses. */
  datatype EventType = Bounce | Complaint | OtherEvent(name: string)

  datatype Recipient = Recipient(emailAddress: Option<string>)

  datatype Mail = Mail(tags: Option<map<string, seq<string>>>)

  datatype BounceInfo = BounceInfo(bouncedRecipients: Option<seq<Recipient>>)

  datatype ComplaintInfo = ComplaintInfo(complainedRecipients: Option<seq<Recipient>>)

  /** The parsed SES event. Every part may be absent from the JSON. */
  datatype Message = Message(
    mail: Option<Mail>,
    complaint: Option<ComplaintInfo>,
    bounce: Option<BounceInfo>,
    eventType: Option<EventType>)

  /** `mapNotNull { it.emailAddress }`. */
  function Addresses(rs: seq<Recipient>): (r: seq<string>)
    ensures |r| <= |rs|
    ensures forall a :: a in r <==> exists i :: 0 <= i < |rs| && rs[i].emailAddress == Some(a)
  {
    if |rs| == 0 then []
    else
      var rest := Addresses(rs[1..]);
      assert forall i :: 0 < i < |rs| ==> rs[i] == rs[1..][i - 1];
      match rs[0].emailAddress
      case None => rest
      case Some(a) => [a] + rest
  }

  /** Addresses keep the recipients' order. */
  lemma {:induction false} AddressesAppend(xs: seq<Recipient>, ys: seq<Recipient>)
    ensures Addresses(xs + ys) == Addresses(xs) + Addresses(ys)
    decreases |xs|
  {
    if |xs| > 0 {
      assert (xs + ys)[0] == xs[0];
      assert (xs + ys)[1..] == xs[1..] + ys;
      AddressesAppend(xs[1..], ys);
    } else {
      assert xs + ys == ys;
    }
  }

  /** One recipient gives its address, if it has one. */
  lemma AddressesOne(x: Recipient)
    ensures Addresses([x]) == if x.emailAddress.Some? then [x.emailAddress.value] else []
  {
    assert [x][1..] == [];
  }

  /** The recipient list the event type selects, if the message has one. */
  function SelectedRecipients(m: Message): Option<seq<Recipient>> {
    match m.eventType
    case Some(Bounce) => if m.bounce.Some? then m.bounce.value.bouncedRecipients else None
    case Some(Complaint) => if m.complaint.Some? then m.complaint.value.complainedRecipients else None
    case _ => None
  }

  /** `Message.emails`: the non-null addresses of the bounced recipients of a
      bounce, or of the complained recipients of a complaint; empty
      otherwise. */
  function Emails(m: Message): (r: seq<string>)
    ensures forall a :: a in r <==>
              SelectedRecipients(m).Some?
              && exists i :: 0 <= i < |SelectedRecipients(m).value| && SelectedRecipients(m).value[i].emailAddress == Some(a)
    ensures SelectedRecipients(m).Some? ==> r == Addresses(SelectedRecipients(m).value)
    ensures SelectedRecipients(m).None? ==> r == []
    ensures m.eventType != Some(Bounce) && m.eventType != Some(Complaint) ==> r == []
    ensures m.eventType == Some(Bounce) && (m.bounce.None? || m.bounce.value.bouncedRecipients.None?) ==> r == []
    ensures m.eventType == Some(Complaint) && (m.complaint.None? || m.complaint.value.complainedRecipients.None?) ==> r == []
  {
    var selected :=
      match m.eventType
      case Some(Bounce) => if m.bounce.Some? then m.bounce.value.bouncedRecipients else None
      case Some(Complaint) => if m.complaint.Some? then m.complaint.value.complainedRecipients else None
      case _ => None;
    match selected
    case None => []
    case Some(rs) => Addresses(rs)
  }

  /** A bounce never reports the complaint's recipients, and vice versa. */
  lemma EmailsFollowEventType(m: Message, a: string)
    requires a in Emails(m)
    ensures m.eventType == Some(Bounce) ==>
              exists i :: 0 <= i < |m.bounce.value.bouncedRecipients.value|
                && m.bounce.value.bouncedRecipients.value[i].emailAddress == Some(a)
    ensures m.eventType == Some(Complaint) ==>
              exists i :: 0 <= i < |m.complaint.value.complainedRecipients.value|
                && m.complaint.value.complainedRecipients.value[i].emailAddress == Some(a)
    ensures m.eventType == Some(Bounce) || m.eventType == Some(Complaint)
  {
  }

  /** `Message.tags`: the mail's tags, or none when the mail or its tags are
      absent. */
  function Tags(m: Message): (r: map<string, seq<string>>)
    ensures m.mail.Some? && m.mail.value.tags.Some? ==> r == m.mail.value.tags.value
    ensures m.mail.None? || m.mail.value.tags.None? ==> r == map[]
  {
    match m.mail
    case None => map[]
    case Some(mail) => mail.tags.GetOr(map[])
  }

  // ----- the handler -----

  datatype Handler = Handler(region: Region, stored: Option<Message>)

  /** The constructors: the SNS message manager's region is resolved like
      every other AWS region; the slot starts empty. */
  function NewHandler(constant: Option<Region>, text: Option<string>, catalogue: seq<Region>, chain: Option<string>)
    : (r: Result<Handler, RegionError>)
    ensures r.Success? <==> ResolveRegion(constant, text, catalogue, chain).Success?
    ensures r.Success? ==> r.value.stored.None? && r.value.region == ResolveRegion(constant, text, catalogue, chain).value
  {
    var region :- ResolveRegion(constant, text, catalogue, chain);
    Success(Handler(region, None))
  }

  datatype SnsNotification = SnsNotification(topicArn: string, message: string)

  datatype SnsSubscriptionConfirmation = SnsSubscriptionConfirmation(topicArn: string)

  /** A verified SNS message, as the message manager dispatches it. */
  datatype SnsMessage =
    | Notification(notification: SnsNotification)
    | SubscriptionConfirmation(confirmation: SnsSubscriptionConfirmation)
    | UnsubscribeConfirmation(topicArn: string)
    | UnknownMessage(topicArn: string)

  /** Gson: the message for a JSON text, or nothing when it does not parse. */
  type Parser = string -> Option<Message>

  /** `confirmSubscription()`: passes, or fails with a reason. */
  type Confirmer = SnsSubscriptionConfirmation -> Outcome<string>

  datatype StreamError = InvalidMessage | SubscriptionFailed(reason: string)

  /** `handle(SnsNotification?)`: a notification replaces the slot with its
      parsed message, or with nothing when it does not parse; no
      notification changes nothing. */
  function HandleNotification(h: Handler, n: Option<SnsNotification>, parse: Parser): (r: Handler)
    ensures r.region == h.region
    ensures n.None? ==> r.stored == h.stored
    ensures n.Some? ==> r.stored == parse(n.value.message)
    ensures n.Some? && parse(n.value.message).None? ==> r.stored.None?
  {
    match n
    case None => h
    case Some(notification) => h.(stored := parse(notification.message))
  }

  /** `handle(SnsSubscriptionConfirmation?)`: confirm the subscription; a
      failure is rethrown. The slot is untouched either way. */
  function HandleSubscription(h: Handler, c: Option<SnsSubscriptionConfirmation>, confirm: Confirmer)
    : (r: Result<Handler, StreamError>)
    ensures r.Failure? <==> c.Some? && confirm(c.value).Fail?
    ensures r.Failure? ==> r.error == SubscriptionFailed(confirm(c.value).error)
    ensures r.Success? ==> r.value == h
  {
    match c
    case None => Success(h)
    case Some(confirmation) =>
      match confirm(confirmation)
      case Pass => Success(h)
      case Fail(reason) => Failure(SubscriptionFailed(reason))
  }

  /** `handle(stream)`: the message manager reads and verifies one SNS
      message (`None` when it cannot) and dispatches it; then the slot's
      message is returned and the slot emptied. When dispatch throws, the
      handler is left as it was. */
  function HandleStream(h: Handler, incoming: Option<SnsMessage>, parse: Parser, confirm: Confirmer)
    : (r: (Handler, Result<Option<Message>, StreamError>))
    ensures r.0.region == h.region
    ensures r.1.Success? ==> r.0.stored.None?
    ensures r.1.Failure? ==> r.0 == h
    ensures incoming.None? ==> r.1 == Failure(InvalidMessage)
    ensures incoming.Some? && incoming.value.Notification? ==>
              r.1 == Success(parse(incoming.value.notification.message))
    ensures incoming.Some? && incoming.value.SubscriptionConfirmation? ==>
              (r.1.Failure? <==> confirm(incoming.value.confirmation).Fail?)
    ensures incoming.Some? && !incoming.value.Notification? && r.1.Success? ==> r.1 == Success(h.stored)
  {
    var dispatched: Result<Handler, StreamError> :=
      match incoming
      case None => Failure(InvalidMessage)
      case Some(Notification(n)) => Success(HandleNotification(h, Some(n), parse))
      case Some(SubscriptionConfirmation(c)) => HandleSubscription(h, Some(c), confirm)
      case Some(UnsubscribeConfirmation(_)) => Success(h)
      case Some(UnknownMessage(_)) => Success(h);
    match dispatched
    case Failure(e) => (h, Failure(e))
    case Success(after) => (after.(stored := None), Success(after.stored))
  }

  /** The slot is read once: after a successful read, a message that stores
      nothing reads as nothing. */
  lemma ReadOnce(h: Handler, first: Option<SnsMessage>, second: SnsMessage, parse: Parser, confirm: Confirmer)
    requires HandleStream(h, first, parse, confirm).1.Success?
    requires !second.Notification?
    ensures var after := HandleStream(h, first, parse, confirm).0;
            var again := HandleStream(after, Some(second), parse, confirm).1;
            again.Success? ==> again == Success(None)
  {
  }
}
