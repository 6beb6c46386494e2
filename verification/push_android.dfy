/** The Android push sender: it chooses an endpoint and a dispatch strategy
    from the `firebase` and `legacy` flags, builds either one v1 message per
    token or one legacy `registration_ids` message for all tokens, posts
    them, and folds the HTTP status codes into a batch report.

    The HTTP connection is the `Transport` parameter: it maps one request to
    the status code it answers with, or to `None` when the connection or the
    reading of the status code throws. The concurrent fan-out keeps the order
    of the tokens, so it is modelled as a loop over them. */
module PushAndroid {

  import opened Wrappers
  import opened Text
  import UrlEncoding

  // ----- payloads -----

  /** The Kotlin maps, lists and strings that are serialised as the body. */
  datatype Json = JString(s: string) | JList(items: seq<Json>) | JObject(fields: map<string, Json>)

  function Field(j: Json, key: string): Option<Json> {
    if j.JObject? && key in j.fields then Some(j.fields[key]) else None
  }

  /** The value at a path of object keys. */
  function At(j: Json, path: seq<string>): Option<Json>
    decreases |path|
  {
    if |path| == 0 then Some(j)
    else
      match Field(j, path[0])
      case None => None
      case Some(child) => At(child, path[1..])
  }

  /** The v1 message `{"message": {"data": {"message": content}, "token": token}}`;
      the token is left out when it is null. */
  function TokenPayload(content: string, token: Option<string>): (j: Json)
    ensures At(j, ["message", "data", "message"]) == Some(JString(content))
    ensures At(j, ["message", "token"]) == (if token.Some? then Some(JString(token.value)) else None)
    ensures j.JObject? && j.fields.Keys == {"message"}
  {
    var data := JObject(map["message" := JString(content)]);
    var message := map["data" := data];
    JObject(map["message" := JObject(if token.Some? then message["token" := JString(token.value)] else message)])
  }

  /** The legacy bulk message `{"registration_ids": tokens, "data": {"message": content}}`. */
  function LegacyPayload(content: string, tokens: seq<string>): (j: Json)
    ensures At(j, ["data", "message"]) == Some(JString(content))
    ensures match At(j, ["registration_ids"])
            case Some(JList(ids)) =>
              |ids| == |tokens| && forall i :: 0 <= i < |ids| ==> ids[i] == JString(tokens[i])
            case _ => false
    ensures j.JObject? && j.fields.Keys == {"registration_ids", "data"}
  {
    var ids := seq(|tokens|, i requires 0 <= i < |tokens| => JString(tokens[i]));
    JObject(map["registration_ids" := JList(ids), "data" := JObject(map["message" := JString(content)])])
  }

  // ----- configuration and endpoints -----

  /** The sender's settings; `projectId` is the `project_id` read from the
      service-account file when the sender is built (null when absent). */
  datatype Config = Config(apiKey: Option<string>, projectId: Option<string>, firebase: bool, legacy: bool)

  /** The current constructor: FCM v1 with a service-account file. */
  function NewSender(projectId: Option<string>): (c: Config)
    ensures c.firebase && !c.legacy && c.apiKey.None?
  {
    Config(None, projectId, true, false)
  }

  /** The deprecated constructor with a server key. */
  function NewDeprecatedSender(apiKey: string, projectId: Option<string>, firebase: bool, legacy: bool): (c: Config)
    ensures c.apiKey == Some(apiKey) && c.firebase == firebase && c.legacy == legacy
  {
    Config(Some(apiKey), projectId, firebase, legacy)
  }

  const GcmEndpoint: string := "https://android.googleapis.com/gcm/send"

  /** The legacy FCM endpoint as the sender spells it: a `/` is missing
      between the host and the path. */
  const FcmLegacyEndpointAsWritten: string := "https://fcm.googleapis.comfcm/send"

  /** The legacy FCM endpoint with the missing `/` restored: what the sender
      evidently means to call. `Url` keeps the spelling above, as the sender does. */
  const FcmLegacyEndpoint: string := "https://fcm.googleapis.com/fcm/send"

  const FcmHost: string := "fcm.googleapis.com"

  /** The v1 endpoint; a null project id is spelled "null" by the template. */
  function FcmEndpoint(projectId: Option<string>): string {
    "https://" + FcmHost + "/v1/projects/" + Render(projectId) + "/messages:send"
  }

  /** The host part of an `https://` URL. */
  function Host(url: string): string {
    var rest := if "https://" <= url then url[8..] else url;
    Split(rest, '/')[0]
  }

  lemma HostOfHostThenPath(host: string, path: string)
    requires '/' !in host
    ensures Host("https://" + host + "/" + path) == host
  {
    var url := "https://" + host + "/" + path;
    assert "https://" <= url;
    assert url[8..] == host + ("/" + path);
    SplitAfterPlainPrefix(host, "/" + path, '/');
    assert Split("/" + path, '/')[0] == "";
    assert host + "" == host;
  }

  lemma HostOfFcmEndpoint(projectId: Option<string>)
    ensures Host(FcmEndpoint(projectId)) == FcmHost
  {
    var path := "v1/projects/" + Render(projectId) + "/messages:send";
    assert FcmEndpoint(projectId) == "https://" + FcmHost + "/" + path;
    HostOfHostThenPath(FcmHost, path);
  }

  /** The as-written legacy endpoint names the host `fcm.googleapis.comfcm`,
      not the FCM host that every other FCM URL of the sender uses. */
  lemma FcmLegacyEndpointAsWrittenHasWrongHost(projectId: Option<string>)
    ensures Host(FcmLegacyEndpointAsWritten) == "fcm.googleapis.comfcm"
    ensures Host(FcmLegacyEndpointAsWritten) != Host(FcmEndpoint(projectId))
  {
    HostOfFcmLegacyEndpointAsWritten();
    HostOfFcmEndpoint(projectId);
    assert |"fcm.googleapis.comfcm"| != |FcmHost|;
  }

  lemma HostOfFcmLegacyEndpointAsWritten()
    ensures Host(FcmLegacyEndpointAsWritten) == "fcm.googleapis.comfcm"
  {
    var wrongHost := "fcm.googleapis.comfcm";
    assert FcmLegacyEndpointAsWritten == "https://" + wrongHost + "/" + "send";
    assert '/' !in wrongHost by {
      assert forall i :: 0 <= i < |wrongHost| ==> wrongHost[i] != '/';
    }
    HostOfHostThenPath(wrongHost, "send");
  }

  lemma HostOfFcmLegacyEndpoint()
    ensures Host(FcmLegacyEndpoint) == FcmHost
  {
    var path := "fcm/send";
    assert FcmLegacyEndpoint == "https://" + FcmHost + "/" + path;
    HostOfHostThenPath(FcmHost, path);
  }

  /** The corrected legacy endpoint is on the FCM host, at path `/fcm/send`. */
  lemma FcmLegacyEndpointHasFcmHost(projectId: Option<string>)
    ensures Host(FcmLegacyEndpoint) == FcmHost == Host(FcmEndpoint(projectId))
  {
    HostOfFcmLegacyEndpoint();
    HostOfFcmEndpoint(projectId);
  }

  /** Only FCM v1 sends one request per token. */
  predicate PerToken(c: Config) {
    c.firebase && !c.legacy
  }

  function Url(c: Config): string {
    if c.firebase && c.legacy then FcmLegacyEndpointAsWritten
    else if c.firebase then FcmEndpoint(c.projectId)
    else GcmEndpoint
  }

  /** The endpoint decides the strategy: the per-token path is taken exactly
      when the URL is the v1 endpoint, and the three endpoints are distinct. */
  lemma PerTokenIffV1Endpoint(c: Config)
    ensures PerToken(c) <==> Url(c) == FcmEndpoint(c.projectId)
    ensures c.firebase && c.legacy ==> Url(c) == FcmLegacyEndpointAsWritten
    ensures !c.firebase ==> Url(c) == GcmEndpoint
  {
    var v1 := FcmEndpoint(c.projectId);
    assert v1[8] == 'f' && GcmEndpoint[8] == 'a';
    assert v1[26] == '/' && FcmLegacyEndpointAsWritten[26] == 'f';
  }

  /** The text that is sent: URL-encoded when `encode` is set. */
  function Content(text: string, encode: bool): (content: string)
    ensures encode ==> UrlEncoding.UrlDecode(content) == Some(text)
    ensures !encode ==> content == text
  {
    if encode then
      UrlEncoding.UrlDecodeEncode(text);
      UrlEncoding.UrlEncode(text)
    else text
  }

  // ----- transport -----

  /** The service-account credentials behind the bearer token: a token (null
      when the service file is missing) or a file that cannot be read. */
  datatype Credential = Token(value: Option<string>) | Unreadable

  /** `getAuthToken()` runs again for every post: the outcome of the `i`-th
      post's fetch within one send. A refresh may fail, or yield another
      token, part-way through a batch. */
  type Credentials = nat -> Credential

  datatype SendError = CredentialError | TransportError(url: string)

  const ContentType: string := "application/json"

  datatype Request = Request(url: string, contentType: string, authorization: string, body: Json)

  /** One HTTP exchange: the status code, or `None` when it throws. */
  type Transport = Request -> Option<int>

  /** The `Authorization` header: the server key in legacy mode, a freshly
      fetched bearer token otherwise (also for GCM when `legacy` is false). */
  function Authorization(c: Config, cred: Credential): (r: Result<string, SendError>)
    ensures r.Failure? <==> !c.legacy && cred.Unreadable?
    ensures r.Success? ==> (c.legacy <==> "key=" <= r.value)
    ensures r.Success? && c.legacy ==> r.value[4..] == Render(c.apiKey)
    ensures r.Success? && !c.legacy ==> "Bearer " <= r.value && r.value[7..] == Render(cred.value)
  {
    if c.legacy then Success("key=" + Render(c.apiKey))
    else
      match cred
      case Token(t) =>
        var header := "Bearer " + Render(t);
        assert header[0] == 'B';
        Success(header)
      case Unreadable => Failure(CredentialError)
  }

  /** `post`: authorise, send the body, read the status code. */
  function Post(c: Config, cred: Credential, transport: Transport, url: string, body: Json): Result<int, SendError> {
    match Authorization(c, cred)
    case Failure(e) => Failure(e)
    case Success(auth) =>
      match transport(Request(url, ContentType, auth, body))
      case None => Failure(TransportError(url))
      case Some(code) => Success(code)
  }

  function TokenCall(c: Config, cred: Credential, transport: Transport, url: string, content: string, token: string): Result<int, SendError> {
    Post(c, cred, transport, url, TokenPayload(content, Some(token)))
  }

  // ----- responses -----

  /** `HttpURLConnection.HTTP_BAD_REQUEST`. */
  const HttpBadRequest: int := 400

  predicate IsSuccess(code: int) {
    code < HttpBadRequest
  }

  /** One call's outcome; `tokens` is the joined list of tokens it addressed. */
  datatype Response = Response(tokens: string, responseCode: int)

  function ResponseFor(tokens: seq<string>, code: int): Response {
    Response(Join(tokens, DefaultSeparator), code)
  }

  datatype BatchResponse = BatchResponse(responses: seq<Response>)

  function Successes(rs: seq<Response>): nat {
    if |rs| == 0 then 0
    else Successes(rs[..|rs| - 1]) + (if IsSuccess(rs[|rs| - 1].responseCode) then 1 else 0)
  }

  function Failures(rs: seq<Response>): nat {
    if |rs| == 0 then 0
    else Failures(rs[..|rs| - 1]) + (if IsSuccess(rs[|rs| - 1].responseCode) then 0 else 1)
  }

  function FailedTokens(rs: seq<Response>): seq<string> {
    if |rs| == 0 then []
    else FailedTokens(rs[..|rs| - 1]) + (if IsSuccess(rs[|rs| - 1].responseCode) then [] else [rs[|rs| - 1].tokens])
  }

  /** Every response is counted exactly once. */
  lemma {:induction false} CountsAddUp(rs: seq<Response>)
    ensures Successes(rs) + Failures(rs) == |rs|
    ensures |FailedTokens(rs)| == Failures(rs)
  {
    if |rs| > 0 {
      CountsAddUp(rs[..|rs| - 1]);
    }
  }

  /** A token string is reported as failed exactly when some failing
      response carries it. */
  lemma {:induction false} FailedTokensAreFailingResponses(rs: seq<Response>, t: string)
    ensures t in FailedTokens(rs) <==>
            exists i :: 0 <= i < |rs| && !IsSuccess(rs[i].responseCode) && rs[i].tokens == t
  {
    if |rs| > 0 {
      var init := rs[..|rs| - 1];
      FailedTokensAreFailingResponses(init, t);
      if t in FailedTokens(init) {
        var i :| 0 <= i < |init| && !IsSuccess(init[i].responseCode) && init[i].tokens == t;
        assert rs[i] == init[i];
      }
      if exists i :: 0 <= i < |rs| && !IsSuccess(rs[i].responseCode) && rs[i].tokens == t {
        var i :| 0 <= i < |rs| && !IsSuccess(rs[i].responseCode) && rs[i].tokens == t;
        if i < |init| {
          assert init[i] == rs[i];
        }
      }
    }
  }

  /** The failed tokens keep the order of the responses. */
  lemma {:induction false} FailedTokensAppend(a: seq<Response>, b: seq<Response>)
    ensures FailedTokens(a + b) == FailedTokens(a) + FailedTokens(b)
    decreases |b|
  {
    if |b| == 0 {
      assert a + b == a;
    } else {
      assert (a + b)[..|a + b| - 1] == a + b[..|b| - 1];
      FailedTokensAppend(a, b[..|b| - 1]);
    }
  }

  /** A failing bulk call is one failure whose entry joins all tokens. */
  lemma LegacyFailureReport(tokens: seq<string>, code: int)
    requires !IsSuccess(code)
    ensures var rs := [ResponseFor(tokens, code)];
            Successes(rs) == 0 && Failures(rs) == 1 && FailedTokens(rs) == [Join(tokens, DefaultSeparator)]
  {
    var rs := [ResponseFor(tokens, code)];
    assert rs[..0] == [];
  }

  // ----- dispatch -----

  /** The post for the token at position `i` of a batch, authorised with that
      post's own credential fetch. */
  function NthCall(c: Config, creds: Credentials, transport: Transport, url: string, content: string, tokens: seq<string>, i: nat)
    : Result<int, SendError>
    requires i < |tokens|
  {
    TokenCall(c, creds(i), transport, url, content, tokens[i])
  }

  /** `sendFirebase`: one v1 request per token, in token order, duplicates
      included. Every request is issued; if any of them throws, the send
      throws. */
  method SendFirebase(c: Config, creds: Credentials, transport: Transport, content: string, url: string, tokens: seq<string>)
    returns (r: Result<BatchResponse, SendError>)
    ensures r.Success? <==> forall i :: 0 <= i < |tokens| ==> NthCall(c, creds, transport, url, content, tokens, i).Success?
    ensures r.Failure? ==> exists i :: 0 <= i < |tokens| && NthCall(c, creds, transport, url, content, tokens, i) == Failure(r.error)
    ensures r.Success? ==> |r.value.responses| == |tokens|
    ensures r.Success? ==> forall i :: 0 <= i < |tokens| ==>
              r.value.responses[i] == Response(tokens[i], NthCall(c, creds, transport, url, content, tokens, i).value)
  {
    var outcomes: seq<Result<int, SendError>> := [];
    var i := 0;
    while i < |tokens|
      invariant 0 <= i <= |tokens|
      invariant |outcomes| == i
      invariant forall j :: 0 <= j < i ==> outcomes[j] == NthCall(c, creds, transport, url, content, tokens, j)
    {
      outcomes := outcomes + [NthCall(c, creds, transport, url, content, tokens, i)];
      i := i + 1;
    }
    match Collect(tokens, outcomes) {
      case Failure(e) => r := Failure(e);
      case Success(responses) => r := Success(BatchResponse(responses));
    }
  }

  /** `awaitAll` over the per-token calls: the responses in token order when
      every call returned, otherwise the error of a call that threw. */
  function Collect(tokens: seq<string>, outcomes: seq<Result<int, SendError>>): (r: Result<seq<Response>, SendError>)
    requires |outcomes| == |tokens|
    ensures r.Success? <==> forall i :: 0 <= i < |outcomes| ==> outcomes[i].Success?
    ensures r.Failure? ==> exists i :: 0 <= i < |outcomes| && outcomes[i] == Failure(r.error)
    ensures r.Success? ==> |r.value| == |tokens|
    ensures r.Success? ==> forall i :: 0 <= i < |tokens| ==> r.value[i] == Response(tokens[i], outcomes[i].value)
  {
    if |tokens| == 0 then Success([])
    else
      match outcomes[0]
      case Failure(e) => Failure(e)
      case Success(code) =>
        match Collect(tokens[1..], outcomes[1..])
        case Failure(e) =>
          assert forall i :: 0 <= i < |outcomes| - 1 ==> outcomes[1..][i] == outcomes[i + 1];
          Failure(e)
        case Success(rest) =>
          var response := ResponseFor([tokens[0]], code);
          assert response == Response(tokens[0], code);
          assert forall i :: 0 < i < |outcomes| ==> outcomes[i] == outcomes[1..][i - 1];
          Success([response] + rest)
  }

  /** `sendLegacyOrGCM`: one bulk request for all tokens (also when there
      are none), reported as a single response. */
  function SendLegacyOrGcm(c: Config, creds: Credentials, transport: Transport, content: string, url: string, tokens: seq<string>)
    : (r: Result<BatchResponse, SendError>)
    ensures r.Success? <==> Post(c, creds(0), transport, url, LegacyPayload(content, tokens)).Success?
    ensures r.Failure? ==> r.error == Post(c, creds(0), transport, url, LegacyPayload(content, tokens)).error
    ensures r.Success? ==> |r.value.responses| == 1
    ensures r.Success? ==> r.value.responses[0].tokens == Join(tokens, DefaultSeparator)
    ensures r.Success? ==> r.value.responses[0].responseCode == Post(c, creds(0), transport, url, LegacyPayload(content, tokens)).value
  {
    match Post(c, creds(0), transport, url, LegacyPayload(content, tokens))
    case Failure(e) => Failure(e)
    case Success(code) => Success(BatchResponse([ResponseFor(tokens, code)]))
  }

  /** `send(text, tokens, encode)`: route by the flags. */
  method Send(c: Config, creds: Credentials, transport: Transport, text: string, tokens: seq<string>, encode: bool)
    returns (r: Result<BatchResponse, SendError>)
    ensures PerToken(c) ==>
              (r.Success? <==> forall i :: 0 <= i < |tokens| ==> NthCall(c, creds, transport, Url(c), Content(text, encode), tokens, i).Success?)
    ensures PerToken(c) && r.Success? ==> |r.value.responses| == |tokens|
    ensures PerToken(c) && r.Success? ==> forall i :: 0 <= i < |tokens| ==>
              r.value.responses[i].tokens == tokens[i] &&
              r.value.responses[i].responseCode == NthCall(c, creds, transport, Url(c), Content(text, encode), tokens, i).value
    ensures !PerToken(c) ==> r == SendLegacyOrGcm(c, creds, transport, Content(text, encode), Url(c), tokens)
  {
    var content := Content(text, encode);
    var url := Url(c);
    if c.firebase && !c.legacy {
      r := SendFirebase(c, creds, transport, content, url, tokens);
    } else {
      r := SendLegacyOrGcm(c, creds, transport, content, url, tokens);
    }
  }

  /** The `send(text, tokens)` and `send(text, vararg tokens)` overloads:
      the text is always URL-encoded. */
  method SendEncoded(c: Config, creds: Credentials, transport: Transport, text: string, tokens: seq<string>)
    returns (r: Result<BatchResponse, SendError>)
    ensures PerToken(c) ==>
              (r.Success? <==> forall i :: 0 <= i < |tokens| ==> NthCall(c, creds, transport, Url(c), UrlEncoding.UrlEncode(text), tokens, i).Success?)
    ensures PerToken(c) && r.Success? ==> |r.value.responses| == |tokens|
    ensures PerToken(c) && r.Success? ==> forall i :: 0 <= i < |tokens| ==>
              r.value.responses[i].tokens == tokens[i] &&
              r.value.responses[i].responseCode == NthCall(c, creds, transport, Url(c), UrlEncoding.UrlEncode(text), tokens, i).value
    ensures !PerToken(c) ==> r == SendLegacyOrGcm(c, creds, transport, UrlEncoding.UrlEncode(text), Url(c), tokens)
  {
    assert Content(text, true) == UrlEncoding.UrlEncode(text);
    r := Send(c, creds, transport, text, tokens, true);
  }
}
