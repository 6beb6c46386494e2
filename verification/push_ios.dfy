/** The iOS push sender. In legacy mode it goes through the javapns
    `Push.payload` call and classifies the pushed notifications for an
    invalid-token callback; otherwise it owns a pushy APNs client and sends
    one notification per token, all with the same topic and payload.

    The javapns call and the pushy client's delivery are parameters. The
    payload builder is modelled by the builder state itself; the rendering
    to JSON and its length cap are not modelled. */
module PushIos {

  import opened Wrappers

  // ----- construction -----

  /** `ApnsClientBuilder.PRODUCTION_APNS_HOST`. */
  const ProductionHost: string := "api.push.apple.com"

  /** `ApnsClientBuilder.DEVELOPMENT_APNS_HOST`. */
  const DevelopmentHost: string := "api.sandbox.push.apple.com"

  datatype ApnsClient = ApnsClient(host: string, keystore: string, password: string)

  /** The sender; `production` is nullable, and `client` is built only
      outside legacy mode. */
  datatype Sender = Sender(keystore: string, password: string, production: Option<bool>, legacy: bool, client: Option<ApnsClient>)

  /** The primary constructor once its keystore has loaded (`TryNewSender`
      adds the failure): a client exactly when not in legacy mode, aimed at
      the production host only for `production == true`. */
  function NewSender(keystore: string, password: string, production: Option<bool>, legacy: bool): (s: Sender)
    ensures s.client.Some? <==> !legacy
    ensures s.client.Some? ==> (s.client.value.host == ProductionHost <==> production == Some(true))
    ensures s.client.Some? ==> (s.client.value.host == DevelopmentHost <==> production != Some(true))
    ensures s.keystore == keystore && s.password == password && s.legacy == legacy
  {
    var client :=
      if !legacy then
        Some(ApnsClient(if production == Some(true) then ProductionHost else DevelopmentHost, keystore, password))
      else None;
    Sender(keystore, password, production, legacy, client)
  }

  /** The public constructor once its keystore has loaded: always the
      modern client. */
  function NewModernSender(keystore: string, password: string, production: bool): (s: Sender)
    ensures s.client.Some? && !s.legacy
    ensures s.client.value.host == (if production then ProductionHost else DevelopmentHost)
  {
    NewSender(keystore, password, Some(production), false)
  }

  /** The context class loader's `getResource(name).file`: the file of a
      class-path resource, or nothing when there is no such resource. */
  type ResourceFiles = string -> Option<string>

  /** Why building a sender throws: the `NullPointerException` of a keystore
      that is not on the class path, or the exception `setClientCredentials`
      or `build()` raises for a keystore that cannot be opened with the
      password. */
  datatype BuildError = MissingResource(name: string) | KeystoreRejected(name: string)

  /** `BuildFromFiles`: legacy mode, no client, production unset, with the
      keystore at the resource's file; a missing resource throws. */
  function BuildFromFiles(files: ResourceFiles, keystore: string, password: string): (r: Result<Sender, BuildError>)
    ensures r.Failure? <==> files(keystore).None?
    ensures r.Failure? ==> r.error == MissingResource(keystore)
    ensures r.Success? ==> r.value.legacy && r.value.client.None? && r.value.production.None?
    ensures r.Success? ==> r.value.keystore == files(keystore).value && r.value.password == password
  {
    match files(keystore)
    case None => Failure(MissingResource(keystore))
    case Some(path) => Success(NewSender(path, password, None, true))
  }

  /** `ResourceLoader.getStreamResource` followed by `setClientCredentials`
      and `build()`: whether the keystore resource exists and opens with the
      password. */
  type KeystoreCheck = (string, string) -> bool

  /** The primary constructor with its failure: outside legacy mode the
      client's keystore is loaded, and a keystore that does not load throws
      before any sender exists. Legacy mode loads nothing and cannot fail. */
  function TryNewSender(check: KeystoreCheck, keystore: string, password: string, production: Option<bool>, legacy: bool)
    : (r: Result<Sender, BuildError>)
    ensures r.Failure? <==> !legacy && !check(keystore, password)
    ensures r.Failure? ==> r.error == KeystoreRejected(keystore)
    ensures r.Success? ==> (r.value.client.Some? <==> !legacy)
    ensures r.Success? && r.value.client.Some? ==>
              r.value.client.value.host == (if production == Some(true) then ProductionHost else DevelopmentHost)
    ensures r.Success? ==> r.value.keystore == keystore && r.value.password == password && r.value.legacy == legacy
  {
    if !legacy && !check(keystore, password) then Failure(KeystoreRejected(keystore))
    else Success(NewSender(keystore, password, production, legacy))
  }

  /** The public constructor with its failure: it succeeds iff the keystore
      loads, and then holds a client on the host `production` selects. */
  function TryNewModernSender(check: KeystoreCheck, keystore: string, password: string, production: bool)
    : (r: Result<Sender, BuildError>)
    ensures r.Success? <==> check(keystore, password)
    ensures r.Failure? ==> r.error == KeystoreRejected(keystore)
    ensures r.Success? ==> !r.value.legacy && r.value.client.Some?
    ensures r.Success? ==> r.value.client.value.host == (if production then ProductionHost else DevelopmentHost)
  {
    TryNewSender(check, keystore, password, Some(production), false)
  }

  // ----- legacy (javapns) sending -----

  /** The javapns payload: an alert text and a badge. */
  datatype LegacyPayload = LegacyPayload(alert: string, badge: int)

  /** One pushed notification as javapns reports it. */
  datatype PushedNotification = PushedNotification(
    device: string,
    successful: bool,
    transmissionCompleted: bool,
    response: Option<string>,
    exception: Option<string>)

  /** The arguments of one `Push.payload` call. */
  datatype PushCall = PushCall(payload: LegacyPayload, keystore: string, password: string, production: bool, tokens: seq<string>)

  /** The javapns exceptions the sender catches and logs. */
  datatype LegacyError = JsonError | CommunicationError | KeystoreError

  type LegacyPush = PushCall -> Result<seq<PushedNotification>, LegacyError>

  /** The three lists handed to `invalidTokens(unsuccessful, exceptions, responses)`. */
  datatype Classification = Classification(
    erroneous: seq<PushedNotification>,
    exceptions: seq<PushedNotification>,
    responses: seq<PushedNotification>)

  /** What a legacy send does: the javapns call, and the callback's
      arguments when the callback is invoked. */
  datatype LegacyEffect = LegacyEffect(call: PushCall, callback: Option<Classification>)

  function Filter<T>(xs: seq<T>, keep: T -> bool): (r: seq<T>)
    ensures |r| <= |xs|
  {
    if |xs| == 0 then []
    else Filter(xs[..|xs| - 1], keep) + (if keep(xs[|xs| - 1]) then [xs[|xs| - 1]] else [])
  }

  lemma {:induction false} FilterMembership<T>(xs: seq<T>, keep: T -> bool, x: T)
    ensures x in Filter(xs, keep) <==> x in xs && keep(x)
  {
    if |xs| > 0 {
      FilterMembership(xs[..|xs| - 1], keep, x);
      assert xs == xs[..|xs| - 1] + [xs[|xs| - 1]];
    }
  }

  /** How many times a push is listed as erroneous: once for being
      unsuccessful and once more for an incomplete transmission. */
  function Weight(p: PushedNotification): nat {
    (if !p.successful then 1 else 0) + (if !p.transmissionCompleted then 1 else 0)
  }

  /** `Weight(p)` copies of `p`. */
  function Copies(p: PushedNotification): (r: seq<PushedNotification>)
    ensures |r| == Weight(p)
    ensures forall i :: 0 <= i < |r| ==> r[i] == p
  {
    (if !p.successful then [p] else []) + (if !p.transmissionCompleted then [p] else [])
  }

  function AllCopies(ps: seq<PushedNotification>): seq<PushedNotification> {
    if |ps| == 0 then [] else AllCopies(ps[..|ps| - 1]) + Copies(ps[|ps| - 1])
  }

  /** The number of erroneous entries for a push, given how often it occurs
      among the pushes: that many for being unsuccessful, and that many more
      for an incomplete transmission. */
  function ErroneousCount(x: PushedNotification, occurrences: nat): nat {
    (if !x.successful then occurrences else 0) + (if !x.transmissionCompleted then occurrences else 0)
  }

  /** A push that is both unsuccessful and incomplete is listed twice per
      occurrence. */
  lemma {:induction false} AllCopiesCount(ps: seq<PushedNotification>, x: PushedNotification)
    ensures multiset(AllCopies(ps))[x] == ErroneousCount(x, multiset(ps)[x])
  {
    if |ps| > 0 {
      var init := ps[..|ps| - 1];
      var p := ps[|ps| - 1];
      AllCopiesCount(init, x);
      assert ps == init + [p];
      assert multiset(ps)[x] == multiset(init)[x] + (if p == x then 1 else 0);
      assert multiset(AllCopies(ps))[x] == multiset(AllCopies(init))[x] + multiset(Copies(p))[x];
      CopiesCount(p, x);
    }
  }

  lemma CopiesCount(p: PushedNotification, x: PushedNotification)
    ensures multiset(Copies(p))[x] == (if p == x then Weight(x) else 0)
  {
    if !p.successful && !p.transmissionCompleted {
      assert Copies(p) == [p, p];
    } else if !p.successful || !p.transmissionCompleted {
      assert Copies(p) == [p];
    } else {
      assert Copies(p) == [];
    }
  }

  predicate HasResponse(p: PushedNotification) { p.response.Some? }

  predicate HasException(p: PushedNotification) { p.exception.Some? }

  /** The classification loop over the pushes. */
  method Classify(pushes: seq<PushedNotification>) returns (c: Classification)
    ensures c.erroneous == AllCopies(pushes)
    ensures forall x :: multiset(c.erroneous)[x] == ErroneousCount(x, multiset(pushes)[x])
    ensures c.responses == Filter(pushes, HasResponse)
    ensures c.exceptions == Filter(pushes, HasException)
    ensures forall x :: x in c.responses <==> x in pushes && x.response.Some?
    ensures forall x :: x in c.exceptions <==> x in pushes && x.exception.Some?
  {
    var erroneous: seq<PushedNotification> := [];
    var responses: seq<PushedNotification> := [];
    var exceptions: seq<PushedNotification> := [];
    var i := 0;
    while i < |pushes|
      invariant 0 <= i <= |pushes|
      invariant erroneous == AllCopies(pushes[..i])
      invariant responses == Filter(pushes[..i], HasResponse)
      invariant exceptions == Filter(pushes[..i], HasException)
    {
      var p := pushes[i];
      assert pushes[..i + 1][..i] == pushes[..i];
      if !p.successful {
        erroneous := erroneous + [p];
      }
      if !p.transmissionCompleted {
        erroneous := erroneous + [p];
      }
      if p.response.Some? {
        responses := responses + [p];
      }
      if p.exception.Some? {
        exceptions := exceptions + [p];
      }
      i := i + 1;
    }
    assert pushes[..i] == pushes;
    c := Classification(erroneous, exceptions, responses);
    forall x
      ensures multiset(c.erroneous)[x] == ErroneousCount(x, multiset(pushes)[x])
      ensures x in c.responses <==> x in pushes && x.response.Some?
      ensures x in c.exceptions <==> x in pushes && x.exception.Some?
    {
      AllCopiesCount(pushes, x);
      FilterMembership(pushes, HasResponse, x);
      FilterMembership(pushes, HasException, x);
    }
  }

  /** `send(text, production, badge, callback, idTokens)`: push the alert
      with the badge; with a callback, classify the pushes and hand the
      lists over. A caught javapns error ends the send quietly. */
  method LegacySend(s: Sender, push: LegacyPush, text: string, production: bool, badge: int, hasCallback: bool, tokens: seq<string>)
    returns (e: LegacyEffect)
    ensures e.call == PushCall(LegacyPayload(text, badge), s.keystore, s.password, production, tokens)
    ensures e.callback.Some? <==> hasCallback && push(e.call).Success?
    ensures e.callback.Some? ==>
              && e.callback.value.erroneous == AllCopies(push(e.call).value)
              && e.callback.value.responses == Filter(push(e.call).value, HasResponse)
              && e.callback.value.exceptions == Filter(push(e.call).value, HasException)
    ensures e.callback.Some? ==> forall x ::
              && multiset(e.callback.value.erroneous)[x] == ErroneousCount(x, multiset(push(e.call).value)[x])
              && (x in e.callback.value.responses <==> x in push(e.call).value && x.response.Some?)
              && (x in e.callback.value.exceptions <==> x in push(e.call).value && x.exception.Some?)
  {
    var call := PushCall(LegacyPayload(text, badge), s.keystore, s.password, production, tokens);
    var outcome := push(call);
    var callback: Option<Classification> := None;
    if outcome.Success? && hasCallback {
      var c := Classify(outcome.value);
      callback := Some(c);
    }
    e := LegacyEffect(call, callback);
  }

  /** The shorter legacy overloads: badge 0 and no callback, so the callback
      is never invoked. */
  method LegacySendDefaults(s: Sender, push: LegacyPush, text: string, production: bool, tokens: seq<string>)
    returns (e: LegacyEffect)
    ensures e.call.payload == LegacyPayload(text, 0)
    ensures e.call.tokens == tokens && e.call.production == production
    ensures e.callback.None?
  {
    e := LegacySend(s, push, text, production, 0, false, tokens);
  }

  /** `send(payload, production, badge, callback, idTokens)`: pushes the
      given payload as it is; the badge and the callback are not used. */
  function LegacySendPayload(s: Sender, payload: LegacyPayload, production: bool, badge: int, hasCallback: bool, tokens: seq<string>)
    : (e: LegacyEffect)
    ensures e.call.payload == payload && e.call.tokens == tokens && e.call.production == production
    ensures e.callback.None?
  {
    LegacyEffect(PushCall(payload, s.keystore, s.password, production, tokens), None)
  }

  // ----- modern (pushy) sending -----

  /** The state of an `ApnsPayloadBuilder`. */
  datatype ApnsPayload = ApnsPayload(alertBody: Option<string>, badge: Option<int>, custom: map<string, string>)

  const EmptyPayload: ApnsPayload := ApnsPayload(None, None, map[])

  type Builder = ApnsPayload -> ApnsPayload

  datatype Notification = Notification(token: string, topic: string, payload: ApnsPayload)

  datatype SendError = NotSupported | DeliveryFailed

  /** Whether the client's future for one notification completes (`get`
      returns) rather than failing. */
  type Delivery = Notification -> bool

  /** One notification per token, in token order; it fails when some
      delivery fails. */
  function FanOut(tokens: seq<string>, topic: string, payload: ApnsPayload, deliver: Delivery): (r: Result<seq<Notification>, SendError>)
    ensures r.Success? <==> forall i :: 0 <= i < |tokens| ==> deliver(Notification(tokens[i], topic, payload))
    ensures r.Success? ==> |r.value| == |tokens|
    ensures r.Success? ==> forall i :: 0 <= i < |tokens| ==>
              r.value[i].token == tokens[i] && r.value[i].topic == topic && r.value[i].payload == payload
    ensures r.Failure? ==> r.error == DeliveryFailed
  {
    var sent := seq(|tokens|, i requires 0 <= i < |tokens| => Notification(tokens[i], topic, payload));
    if forall i :: 0 <= i < |tokens| ==> deliver(Notification(tokens[i], topic, payload))
    then Success(sent)
    else Failure(DeliveryFailed)
  }

  /** Without a client: an error in legacy mode, nothing otherwise. */
  function WithoutClient(s: Sender): Result<seq<Notification>, SendError> {
    if s.legacy then Failure(NotSupported) else Success([])
  }

  /** `send(builder, topic, badge, tokens)`: the badge is set first, then the
      caller's builder runs, so the builder may override the badge. */
  function SendWithBuilder(s: Sender, builder: Builder, topic: string, badge: int, tokens: seq<string>, deliver: Delivery)
    : (r: Result<seq<Notification>, SendError>)
    ensures s.client.None? ==> r == WithoutClient(s)
    ensures s.client.Some? ==> r == FanOut(tokens, topic, builder(EmptyPayload.(badge := Some(badge))), deliver)
  {
    match s.client
    case Some(_) =>
      var payload := builder(EmptyPayload.(badge := Some(badge)));
      FanOut(tokens, topic, payload, deliver)
    case None => WithoutClient(s)
  }

  /** `send(message, topic, badge, tokens)`: the payload carries the alert
      body and the badge. */
  function SendMessage(s: Sender, message: string, topic: string, badge: int, tokens: seq<string>, deliver: Delivery)
    : (r: Result<seq<Notification>, SendError>)
    ensures s.client.None? ==> r == WithoutClient(s)
    ensures s.client.Some? ==> r == FanOut(tokens, topic, ApnsPayload(Some(message), Some(badge), map[]), deliver)
  {
    match s.client
    case Some(_) =>
      var payload := EmptyPayload.(alertBody := Some(message)).(badge := Some(badge));
      FanOut(tokens, topic, payload, deliver)
    case None => WithoutClient(s)
  }

  /** The `@JvmOverloads` variant without a badge: badge 0. */
  function SendMessageDefaultBadge(s: Sender, message: string, topic: string, tokens: seq<string>, deliver: Delivery)
    : (r: Result<seq<Notification>, SendError>)
    ensures r.Success? ==> forall i :: 0 <= i < |r.value| ==> r.value[i].payload.badge == Some(0)
    ensures s.client.Some? ==> (r.Success? <==> forall i :: 0 <= i < |tokens| ==>
              deliver(Notification(tokens[i], topic, ApnsPayload(Some(message), Some(0), map[]))))
  {
    SendMessage(s, message, topic, 0, tokens, deliver)
  }

  /** `close`: closes the client; in legacy mode there is none to close. */
  function Close(s: Sender): (r: Outcome<SendError>)
    ensures r.Fail? <==> s.client.None? && s.legacy
    ensures r.Fail? ==> r.error == NotSupported
  {
    if s.client.Some? then Pass
    else if s.legacy then Fail(NotSupported)
    else Pass
  }

  /** A sender built in legacy mode refuses the modern sends and `close`;
      one built otherwise never answers `NotSupported`. */
  lemma LegacyModeGuard(keystore: string, password: string, production: Option<bool>, legacy: bool,
                        builder: Builder, message: string, topic: string, badge: int, tokens: seq<string>, deliver: Delivery)
    ensures var s := NewSender(keystore, password, production, legacy);
            && (SendWithBuilder(s, builder, topic, badge, tokens, deliver) == Failure(NotSupported) <==> legacy)
            && (SendMessage(s, message, topic, badge, tokens, deliver) == Failure(NotSupported) <==> legacy)
            && (Close(s) == Fail(NotSupported) <==> legacy)
  {
  }

  /** A builder that sets the badge overrides the badge argument; one that
      leaves it alone keeps it. */
  lemma BuilderRunsAfterBadge(s: Sender, builder: Builder, topic: string, badge: int, tokens: seq<string>, deliver: Delivery)
    requires s.client.Some?
    ensures var r := SendWithBuilder(s, builder, topic, badge, tokens, deliver);
            r.Success? ==> forall i :: 0 <= i < |r.value| ==>
              r.value[i].payload.badge ==
                builder(EmptyPayload.(badge := Some(badge))).badge
    ensures (forall p :: builder(p).badge == p.badge) ==>
              var r := SendWithBuilder(s, builder, topic, badge, tokens, deliver);
              r.Success? ==> forall i :: 0 <= i < |r.value| ==> r.value[i].payload.badge == Some(badge)
  {
  }
}
