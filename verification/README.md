# simpli-ws push, signing and AWS helpers in Dafny

This project models the parts of the simpli-ws Kotlin library that carry real
logic. The rest of the library is thin glue over vendor SDKs.

- **Android push** (`PushAndroid`). The sender picks an endpoint and a
  strategy from its `firebase`/`legacy` flags. It builds either a per-token
  v1 message or a legacy bulk `registration_ids` message. It issues one call
  per token, or one call for all tokens. It then folds the status codes into
  a `BatchResponse` with `successes`, `failures` and `failedTokens`. The text
  is URL-encoded with `java.net.URLEncoder` semantics (`UrlEncoding`), and a
  decoder proves that this encoding loses nothing on strings of Unicode scalar
  values, which is what a Dafny `string` holds.
- **iOS push** (`PushIos`). This covers the `client` construction by mode,
  including the failure of a keystore that does not load, and the javapns classification loop that feeds the invalid-token callback.
  It also covers the pushy fan-out: one notification per token, sharing one
  topic and one payload. Finally it covers the legacy-mode
  `NotSupportedException` guard.
- **Request signing canonicalisation** (`RequestSigning`, on top of
  `CaseInsensitiveMap`). A `TreeMap(String.CASE_INSENSITIVE_ORDER)` is
  modelled as a strictly sorted association list on lower-cased names. Two
  helpers build it: the header map, which drops `Host` and
  `Content-Length: 0`, and the query-parameter multimap. A third turns the map
  back into a header list. `process` copies a request into the signable form
  and back.
- **Region and credential resolution** (`Resolvers`). Regions fall back from
  enum, to normalised string, to the default provider chain. A credentials
  path gets a leading `/`, and loading falls back to the default chain.
- **S3 file manager** (`FileManager`). This covers path joining, endpoint and
  object URLs, and upload, move (copy then delete), delete and list, all over
  a bucket modelled as `map<string, seq<Byte>>`.
- **SES notification handler** (`SesNotification`). This covers recipient
  extraction by event type, default tags, the SNS notification and
  subscription handlers, and the read-once message slot.

Every foreign call becomes a function-valued parameter:

- the HTTP transport (`PushAndroid.Transport`);
- the javapns `Push.payload` and the pushy delivery;
- `URIBuilder` parsing (`RequestSigning.UriParser`);
- `Signer.sign`;
- the S3 listing;
- class-path resources;
- the region catalogue and the default region chain;
- the Gson parser;
- SNS `confirmSubscription`.

A Kotlin exception becomes a `Failure` of `Result` (or `Fail` of `Outcome`),
and a Kotlin `null` becomes `None`. Coroutine fan-out (`map { async }
.awaitAll()`) keeps the order of its input, so it is modelled as a sequential
order-preserving map.

Some behaviours of the code are easy to misread:

- A transport exception in Android `send` propagates out of the whole call.
  It is not recorded as a failed response (`SendError.TransportError`).
- A failing legacy or GCM call is one failure. Its one `failedTokens` entry
  is all the tokens joined with `", "`; there is not one entry per target.
- The Firebase access token is re-read on every post. There is no token
  cache. Each post's fetch is its own `PushAndroid.Credentials` entry,
  indexed by the post's position in the batch.
- The legacy FCM URL is used as written, without the `/` after the host
  (see Findings).

## Model

| member | source | states |
|---|---|---|
| PushAndroid.NewSender | src/main/kotlin/br/com/simpli/ws/PushAndroid.kt:30-31 | the public constructor builds a Firebase v1, non-legacy sender without an API key |
| PushAndroid.NewDeprecatedSender | src/main/kotlin/br/com/simpli/ws/PushAndroid.kt:27-28 | the deprecated constructor keeps the API key and both flags as given |
| PushAndroid.TokenPayload | src/main/kotlin/br/com/simpli/ws/PushAndroid.kt:124-135 | the v1 payload has the single top-level key `message`; `message.data.message` is the content; `message.token` is present exactly when a token is given, and then equals it |
| PushAndroid.LegacyPayload | src/main/kotlin/br/com/simpli/ws/PushAndroid.kt:115-122 | the legacy payload has exactly the keys `registration_ids` and `data`; `registration_ids` lists every token in order; `data.message` is the content |
| PushAndroid.HostOfFcmEndpoint | src/main/kotlin/br/com/simpli/ws/PushAndroid.kt:37 | the v1 endpoint, for any project id, addresses host `fcm.googleapis.com` |
| PushAndroid.FcmLegacyEndpointAsWrittenHasWrongHost | src/main/kotlin/br/com/simpli/ws/PushAndroid.kt:36 | the legacy FCM URL as written names host `fcm.googleapis.comfcm`, which is not the host of the v1 endpoint |
| PushAndroid.FcmLegacyEndpointHasFcmHost | src/main/kotlin/br/com/simpli/ws/PushAndroid.kt:36-37 | the corrected legacy FCM URL addresses the same host as the v1 endpoint |
| PushAndroid.PerTokenIffV1Endpoint | src/main/kotlin/br/com/simpli/ws/PushAndroid.kt:55-61 | the per-token strategy is taken exactly when the chosen URL is the v1 endpoint; `firebase && legacy` picks the legacy FCM URL as written, missing `/` included; no `firebase` picks the GCM URL |
| PushAndroid.Content | src/main/kotlin/br/com/simpli/ws/PushAndroid.kt:54 | with `encode` the content decodes back to the text; without it the content is the text itself |
| PushAndroid.Authorization | src/main/kotlin/br/com/simpli/ws/PushAndroid.kt:100-104 | legacy senders send `key=` followed by the API key; other senders send `Bearer ` followed by the access token; it fails only when a non-legacy sender cannot read its service credentials |
| PushAndroid.CountsAddUp | src/main/kotlin/br/com/simpli/ws/PushAndroid.kt:185-187 | every response counts either as a success or as a failure, and there is one failed-token entry per failure |
| PushAndroid.FailedTokensAreFailingResponses | src/main/kotlin/br/com/simpli/ws/PushAndroid.kt:187 | a string is among the failed tokens iff some response with a code of 400 or more carries it |
| PushAndroid.FailedTokensAppend | src/main/kotlin/br/com/simpli/ws/PushAndroid.kt:187 | the failed tokens of a concatenation are those of each part in response order |
| PushAndroid.LegacyFailureReport | src/main/kotlin/br/com/simpli/ws/PushAndroid.kt:161-163 | a failing bulk call reports no success, one failure, and the joined token list as its single failed-token entry |
| PushAndroid.SendFirebase | src/main/kotlin/br/com/simpli/ws/PushAndroid.kt:64-82 | each token's post is authorised with that post's own token fetch; the batch succeeds iff every per-token call succeeds, and then holds one response per token in input order, duplicates included, each with that token's code; a failure is the error of some token's call |
| PushAndroid.Collect | src/main/kotlin/br/com/simpli/ws/PushAndroid.kt:71-77 | awaiting all calls succeeds iff every call returned, and then yields each token paired with its own call's code in token order; otherwise the error is one a call threw |
| PushAndroid.SendLegacyOrGcm | src/main/kotlin/br/com/simpli/ws/PushAndroid.kt:84-93 | exactly one call carries all tokens; on success the batch holds one response with the joined tokens and that call's code; a failing call's error propagates |
| PushAndroid.Send | src/main/kotlin/br/com/simpli/ws/PushAndroid.kt:52-62 | the flags choose the strategy: per-token sending to the v1 endpoint when `firebase && !legacy`, otherwise one bulk call to the legacy or GCM URL, with the content encoded as `encode` says; the per-token posts each fetch their own access token |
| PushAndroid.SendEncoded | src/main/kotlin/br/com/simpli/ws/PushAndroid.kt:43-49 | the convenience overloads always URL-encode the text and otherwise send as `send` does |
| UrlEncoding.UrlEncode | src/main/kotlin/br/com/simpli/ws/PushAndroid.kt:54 | the encoded text uses only unreserved characters, `+` and `%`, and is never shorter than the text |
| UrlEncoding.UrlDecodeEncode | src/main/kotlin/br/com/simpli/ws/PushAndroid.kt:54 | decoding the encoded text gives back the text, for every string |
| PushIos.NewSender | src/main/kotlin/br/com/simpli/ws/PushIOS.kt:23-37 | once the keystore has loaded, a client exists iff the sender is not legacy; it targets the production host iff `production == true`, and the development host for `false` or `null` |
| PushIos.NewModernSender | src/main/kotlin/br/com/simpli/ws/PushIOS.kt:39 | once the keystore has loaded, the public constructor always builds a non-legacy sender with a client on the host that `production` selects |
| PushIos.TryNewSender | src/main/kotlin/br/com/simpli/ws/PushIOS.kt:23-37 | construction throws iff the sender is not legacy and its keystore does not load with the password; otherwise a client exists iff not legacy, on the production host iff `production == true` |
| PushIos.TryNewModernSender | src/main/kotlin/br/com/simpli/ws/PushIOS.kt:23-39 | the public constructor succeeds iff the keystore loads, and then holds a non-legacy client on the host `production` selects |
| PushIos.BuildFromFiles | src/main/kotlin/br/com/simpli/ws/PushIOS.kt:53-56 | the file-based factory fails with the missing resource's name iff the keystore resource does not exist, and otherwise builds a legacy sender on that resource's file, with the given password, no client and no production flag |
| PushIos.FilterMembership | src/main/kotlin/br/com/simpli/ws/PushIOS.kt:96-101 | an element is kept by the filter iff it occurs in the input and passes the test |
| PushIos.AllCopiesCount | src/main/kotlin/br/com/simpli/ws/PushIOS.kt:89-95 | each push occurs in the erroneous list once per occurrence for being unsuccessful, plus once more per occurrence for an incomplete transmission |
| PushIos.Classify | src/main/kotlin/br/com/simpli/ws/PushIOS.kt:88-103 | the loop's erroneous list has those counts; the response and exception lists hold, in push order, exactly the pushes with a response or an exception |
| PushIos.LegacySend | src/main/kotlin/br/com/simpli/ws/PushIOS.kt:75-117 | javapns is called once with the alert-and-badge payload and all tokens; the callback runs iff one is given and the call does not throw, and then receives, in push order, every push with its error copies, the pushes with a response and the pushes with an exception |
| PushIos.LegacySendDefaults | src/main/kotlin/br/com/simpli/ws/PushIOS.kt:59-72 | the short legacy overloads send badge 0 and pass no callback |
| PushIos.LegacySendPayload | src/main/kotlin/br/com/simpli/ws/PushIOS.kt:119-147 | the payload overloads pass the caller's payload and tokens unchanged and never invoke a callback |
| PushIos.FanOut | src/main/kotlin/br/com/simpli/ws/PushIOS.kt:162-167 | one notification per token, in token order, all with the same topic and payload; the send fails iff some delivery fails |
| PushIos.SendWithBuilder | src/main/kotlin/br/com/simpli/ws/PushIOS.kt:149-171 | with a client, the payload is the caller's builder applied to a payload whose badge is already set; without one, legacy mode fails with NotSupported |
| PushIos.BuilderRunsAfterBadge | src/main/kotlin/br/com/simpli/ws/PushIOS.kt:158-160 | the badge every notification carries is the one the builder leaves, so the builder can override it; a builder that keeps the badge leaves the given one |
| PushIos.SendMessage | src/main/kotlin/br/com/simpli/ws/PushIOS.kt:173-196 | with a client, every token gets the payload holding the alert body and the badge; without one, legacy mode fails with NotSupported |
| PushIos.SendMessageDefaultBadge | src/main/kotlin/br/com/simpli/ws/PushIOS.kt:173-176 | the badge defaults to 0 in every sent notification |
| PushIos.Close | src/main/kotlin/br/com/simpli/ws/PushIOS.kt:198-200 | closing fails with NotSupported exactly for a legacy sender without a client |
| PushIos.LegacyModeGuard | src/main/kotlin/br/com/simpli/ws/PushIOS.kt:170-199 | for a freshly built sender, both modern sends and close fail with NotSupported iff it is legacy |
| CaseInsensitiveMap.Get | src/main/kotlin/br/com/simpli/ws/AWSRequestSigningApacheInterceptor.kt:134 | a lookup finds a stored entry with the same lower-cased name, and finds nothing iff no key matches |
| CaseInsensitiveMap.Put | src/main/kotlin/br/com/simpli/ws/AWSRequestSigningApacheInterceptor.kt:137 | after a put the keys are the old keys plus the new one; a sorted map grows by one entry iff the key was absent |
| CaseInsensitiveMap.PutSorted | src/main/kotlin/br/com/simpli/ws/AWSRequestSigningApacheInterceptor.kt:134-137 | a put keeps the entries in strictly ascending case-insensitive order |
| CaseInsensitiveMap.PutGet | src/main/kotlin/br/com/simpli/ws/AWSRequestSigningApacheInterceptor.kt:137 | after a put, the key holds the new value under the first spelling stored |
| CaseInsensitiveMap.PutOther | src/main/kotlin/br/com/simpli/ws/AWSRequestSigningApacheInterceptor.kt:137 | a put leaves every other key untouched |
| CaseInsensitiveMap.PutAbove | src/main/kotlin/br/com/simpli/ws/AWSRequestSigningApacheInterceptor.kt:134-137 | putting a key above all present keys appends it |
| Text.EqualsIgnoreCaseIsFoldEquality | src/main/kotlin/br/com/simpli/ws/AWSRequestSigningApacheInterceptor.kt:148-149 | two names are equal ignoring case iff their lower-cased forms are equal |
| Text.LexLessTransitive | src/main/kotlin/br/com/simpli/ws/AWSRequestSigningApacheInterceptor.kt:134 | the key order is transitive |
| Text.LexLessTotal | src/main/kotlin/br/com/simpli/ws/AWSRequestSigningApacheInterceptor.kt:134 | any two distinct keys are ordered one way or the other |
| RequestSigning.SkipHeaderByKey | src/main/kotlin/br/com/simpli/ws/AWSRequestSigningApacheInterceptor.kt:147-150 | a header is skipped iff its lower-cased name is `host`, or its lower-cased name is `content-length` and its value is exactly `0` |
| RequestSigning.HeaderArrayToMap | src/main/kotlin/br/com/simpli/ws/AWSRequestSigningApacheInterceptor.kt:133-141 | the header map is sorted by case-insensitive name and has at most one entry per header |
| RequestSigning.HeaderArrayToMapLookup | src/main/kotlin/br/com/simpli/ws/AWSRequestSigningApacheInterceptor.kt:133-141 | looking a name up in the header map agrees with the reference: the spelling of the first non-skipped header with that name up to case, and the value of the last one |
| RequestSigning.HeaderMapKeys | src/main/kotlin/br/com/simpli/ws/AWSRequestSigningApacheInterceptor.kt:135-138 | a name is a key of the header map iff some non-skipped header has that name up to case |
| RequestSigning.HeaderMapHasNoSkipped | src/main/kotlin/br/com/simpli/ws/AWSRequestSigningApacheInterceptor.kt:136 | no entry of the header map is a header the filter skips |
| RequestSigning.MapToHeaderArray | src/main/kotlin/br/com/simpli/ws/AWSRequestSigningApacheInterceptor.kt:156-164 | one header per map entry with its name and value, in map order, hence sorted by case-insensitive name |
| RequestSigning.HeaderMapRoundTrip | src/main/kotlin/br/com/simpli/ws/AWSRequestSigningApacheInterceptor.kt:133-164 | a sorted map without skippable entries, turned into headers and back, is the same map |
| RequestSigning.HeaderMapStable | src/main/kotlin/br/com/simpli/ws/AWSRequestSigningApacheInterceptor.kt:133-164 | re-canonicalising the headers a header map produces gives the same map |
| RequestSigning.NvpToMapParams | src/main/kotlin/br/com/simpli/ws/AWSRequestSigningApacheInterceptor.kt:120-127 | the parameter map is sorted by case-insensitive name and has no more keys than there are parameters |
| RequestSigning.NvpToMapParamsLookup | src/main/kotlin/br/com/simpli/ws/AWSRequestSigningApacheInterceptor.kt:120-127 | a key's entry keeps the first spelling of the name and lists, in input order, the values of every parameter with that name up to case |
| RequestSigning.NvpToMapParamsKeepsValues | src/main/kotlin/br/com/simpli/ws/AWSRequestSigningApacheInterceptor.kt:122-125 | every input value appears exactly once in the map, so the total number of values equals the number of parameters |
| RequestSigning.ToSignable | src/main/kotlin/br/com/simpli/ws/AWSRequestSigningApacheInterceptor.kt:78-99 | the signable request keeps the service, target host, method and raw path; it carries content only when the request encloses a non-null entity; its headers are the case-insensitive header map of the request and its parameters the case-insensitive grouping of the URI's query |
| RequestSigning.Process | src/main/kotlin/br/com/simpli/ws/AWSRequestSigningApacheInterceptor.kt:70-113 | processing fails iff the URI does not parse; otherwise the request's headers become the signed headers in map order, and its entity is replaced iff it encloses a non-null one |
| RequestSigning.ProcessWithIdentitySigner | src/main/kotlin/br/com/simpli/ws/AWSRequestSigningApacheInterceptor.kt:98-112 | with a signer that changes nothing, processing succeeds, keeps no skippable header, and yields headers whose case-insensitive map is the original request's map |
| Resolvers.FromName | src/main/kotlin/br/com/simpli/util/Resolvers.kt:12 | a region is found only by its exact name, and nothing is found iff no region has that name |
| Resolvers.Normalize | src/main/kotlin/br/com/simpli/util/Resolvers.kt:12 | normalising keeps the length and leaves no upper-case letter and no `_` |
| Resolvers.NormalizeKeepsNormal | src/main/kotlin/br/com/simpli/util/Resolvers.kt:12 | a normal name is unchanged, so normalising is idempotent |
| Resolvers.ConstantNameNormalizes | src/main/kotlin/br/com/simpli/util/Resolvers.kt:12 | the enum-constant spelling of a normal name (`US_EAST_1`) normalises back to it (`us-east-1`) |
| Resolvers.DefaultRegion | src/main/kotlin/br/com/simpli/util/Resolvers.kt:16 | the default chain's region is used when the catalogue knows it; no region, or an unknown one, is an error |
| Resolvers.ResolveRegion | src/main/kotlin/br/com/simpli/util/Resolvers.kt:8-17 | a given enum wins; otherwise the normalised string when it names a region; otherwise the default chain's region |
| Resolvers.ResolveRegionByName | src/main/kotlin/br/com/simpli/util/Resolvers.kt:10-12 | without an enum, a region's name and its enum-constant spelling both resolve to that region |
| Resolvers.AdjustPath | src/main/kotlin/br/com/simpli/util/Resolvers.kt:22 | the adjusted path starts with `/`; it equals the input iff the input already does, and is `/` plus the input otherwise |
| Resolvers.PropertiesCredentials | src/main/kotlin/br/com/simpli/util/Resolvers.kt:26 | a properties file yields credentials iff it has both `accessKey` and `secretKey`, and they are those values |
| Resolvers.ResolveCredentials | src/main/kotlin/br/com/simpli/util/Resolvers.kt:19-31 | static credentials come exactly from a given path whose adjusted resource exists and holds both keys; every other case is the default chain |
| Resolvers.ResolveCredentialsIgnoresLeadingSlash | src/main/kotlin/br/com/simpli/util/Resolvers.kt:22 | a path with and without its leading `/` resolves to the same provider |
| FileManager.NewFileManager | src/main/kotlin/br/com/simpli/ws/AwsFileManager.kt:48-59 | construction succeeds iff the region resolves, and keeps the bucket name, the resolved region and the resolved credentials |
| FileManager.NonNull | src/main/kotlin/br/com/simpli/ws/AwsFileManager.kt:138 | the kept segments are exactly the non-null ones |
| FileManager.Path | src/main/kotlin/br/com/simpli/ws/AwsFileManager.kt:137-139 | the path of a file with no folder is the file name, and otherwise the folder, `/`, and the file name |
| FileManager.GetPathSplits | src/main/kotlin/br/com/simpli/ws/AwsFileManager.kt:137-139 | splitting a joined path at `/` gives back the non-null segments when none contains `/` |
| FileManager.Endpoint | src/main/kotlin/br/com/simpli/ws/AwsFileManager.kt:145 | the endpoint is `https://s3-`, the region name, and `.amazonaws.com/` |
| FileManager.ObjectUrlNamesObject | src/main/kotlin/br/com/simpli/ws/AwsFileManager.kt:80-86 | the returned URL names the bucket and the object path, both of which can be read back from it |
| FileManager.Upload | src/main/kotlin/br/com/simpli/ws/AwsFileManager.kt:80-86 | the content is stored at the file's path, every other key is unchanged, and the result is the object URL of that path |
| FileManager.UploadBytes | src/main/kotlin/br/com/simpli/ws/AwsFileManager.kt:89-91 | the byte-array overload behaves exactly as the stream upload |
| FileManager.Move | src/main/kotlin/br/com/simpli/ws/AwsFileManager.kt:94-104 | a missing source fails with NoSuchKey; otherwise the old key is gone, even when the new path equals it, the new key holds the old content, every other key is unchanged, and the URL names the new path |
| FileManager.MoveThenMoveBack | src/main/kotlin/br/com/simpli/ws/AwsFileManager.kt:94-104 | moving a file to a free path and back restores the bucket |
| FileManager.Delete | src/main/kotlin/br/com/simpli/ws/AwsFileManager.kt:121-123 | exactly the file's key is removed and every other key keeps its content |
| FileManager.UploadThenDelete | src/main/kotlin/br/com/simpli/ws/AwsFileManager.kt:121-123 | deleting a file just uploaded to a free path restores the bucket |
| FileManager.NonEmptyKeys | src/main/kotlin/br/com/simpli/ws/AwsFileManager.kt:116-117 | a key is listed iff some summary with that key has a positive size |
| FileManager.NonEmptyKeysAppend | src/main/kotlin/br/com/simpli/ws/AwsFileManager.kt:116-117 | the keys kept from a concatenation are those of each part, in listing order, duplicates included |
| FileManager.NonEmptyKeysOne | src/main/kotlin/br/com/simpli/ws/AwsFileManager.kt:116-117 | a single summary contributes its key iff its size is positive |
| FileManager.List | src/main/kotlin/br/com/simpli/ws/AwsFileManager.kt:113-118 | listing yields `NonEmptyKeys` of the listing for the folder, so the keys of its non-empty objects in listing order with their repeats, never more keys than summaries |
| FileManager.ListContents | src/main/kotlin/br/com/simpli/ws/AwsFileManager.kt:113-118 | for a listing faithful to the bucket, the listed keys are exactly the bucket's non-empty keys under the folder prefix |
| FileManager.ListFiles | src/main/kotlin/br/com/simpli/ws/AwsFileManager.kt:108-110 | the deprecated name lists the same keys as `list` |
| SesNotification.Addresses | src/main/kotlin/br/com/simpli/handler/SESNotificationHandler.kt:84-87 | an address is kept iff some recipient carries it |
| SesNotification.AddressesAppend | src/main/kotlin/br/com/simpli/handler/SESNotificationHandler.kt:84-87 | addresses keep the recipients' order |
| SesNotification.AddressesOne | src/main/kotlin/br/com/simpli/handler/SESNotificationHandler.kt:84-87 | one recipient contributes its address iff it has one |
| SesNotification.Emails | src/main/kotlin/br/com/simpli/handler/SESNotificationHandler.kt:82-90 | an address is listed iff a bounced recipient carries it in a Bounce event, or a complained recipient in a Complaint event; the list is the addresses of the selected recipients, in recipient order; any other event, or a missing sub-object, lists nothing |
| SesNotification.EmailsFollowEventType | src/main/kotlin/br/com/simpli/handler/SESNotificationHandler.kt:82-90 | a listed address belongs to the recipient list that the event type selects |
| SesNotification.Tags | src/main/kotlin/br/com/simpli/handler/SESNotificationHandler.kt:81 | the tags are the mail's tags, or the empty map when the mail or its tags are absent |
| SesNotification.NewHandler | src/main/kotlin/br/com/simpli/handler/SESNotificationHandler.kt:15-21 | a handler exists iff its region resolves, and it starts with no stored message |
| SesNotification.HandleNotification | src/main/kotlin/br/com/simpli/handler/SESNotificationHandler.kt:31-39 | a null notification keeps the stored message; otherwise the parse result replaces it, so a message that fails to parse clears it |
| SesNotification.HandleSubscription | src/main/kotlin/br/com/simpli/handler/SESNotificationHandler.kt:41-50 | a failed confirmation is passed on as an error; otherwise the handler is unchanged |
| SesNotification.HandleStream | src/main/kotlin/br/com/simpli/handler/SESNotificationHandler.kt:52-71 | the call returns the message stored after dispatch and empties the slot; a failed confirmation or an unreadable message leaves the handler as it was |
| SesNotification.ReadOnce | src/main/kotlin/br/com/simpli/handler/SESNotificationHandler.kt:64-71 | after a successful read, a second message that stores nothing reads nothing |

## Left out

- The network, credentials and SDK calls are left out. `HttpsURLConnection`, `GoogleCredentials`, the javapns push call, the pushy client's keystore loading and deliveries, the class-path lookups, the S3 listing, the SNS message manager and `Signer.sign` are each a function-valued parameter whose result the caller supplies.
- FileManager.Upload: `AmazonS3` is modelled as the bucket contents, a plain map, so `putObject` always succeeds. Service failures (network errors, access denied, a missing bucket) are not modelled.
- FileManager.Delete: `deleteObject` always succeeds on the bucket map, for the same reason. `FileManager.Move` fails only on a missing source key.
- Coroutines are left out. `GlobalScope.async`/`awaitAll` are modelled only through their ordered result.
- Gson serialisation and parsing, the `project_id` lookup and the response-body reading are left out. Payloads are the `Json` datatype, the SES message is a datatype, and parsing is a parameter.
- Logging is left out, including `NotificationTest.printPushedNotifications` and the `log()` calls.
- `PushIos.LegacySend` does not model which javapns exceptions are caught. The model states only that a throwing call skips the callback.
- `HttpMethodName.fromValue` is left out. The request method is copied as a string, without the rejection of unknown verbs.
- The "Invalid URI" errors of `URIBuilder` are reduced to a parser that may return nothing.
- `DefaultRequest.setHeaders` is left out. The signer's result is taken as the sorted header map it returns.
- `FileManager.Move` models the bucket as a plain map. S3's refusal to copy an object onto itself without a metadata change is service behaviour, so here `move(x, x)` deletes `x`.
- `FileManager.List` does not model the S3 limit of 1000 keys per listing page. The listing is whatever the listing parameter returns.
- `SesNotification.Addresses` does not model null elements inside a recipient list that Gson may produce. Recipients are non-null values whose address is optional.
- Presigned URLs, `getExpiration`, multipart upload and upload-policy signing are left out, because they depend on the wall clock and on SDK cryptography.
- `AwsAES.kt`, `AwsSES.kt`, `AwsSNS.kt`, `AwsSQS.kt`, `AwsSendEmailRequest.kt` and `AWSSendEmailRequest.kt` are not part of this model. They are thin SDK wrappers or template rendering.
- `FileManager.ListFiles` is by definition `list`. Its contract is that equality, as the source promises.
- `FileManager.UploadBytes` is by definition the stream upload. Its contract is that equality plus the stored content.
- UrlEncoding.UrlDecodeEncode: strings are sequences of Unicode scalar values, so an unpaired UTF-16 surrogate, which a Kotlin `String` can hold (text cut inside an emoji pair), cannot be represented. Java encodes such a surrogate as `%3F`, the encoding of `?`, and that text does not come back. The round trip is proved for scalar-value strings only.
- PushAndroid.Content: inherits the same limit. With `encode`, text holding an unpaired surrogate is sent with `?` in its place.
- PushIos.NewSender: models the constructor after the keystore has loaded. Its failure is modelled by `PushIos.TryNewSender`. The other `PushIos` members start from a sender that exists.
- PushIos.NewModernSender: models the public constructor after the keystore has loaded. Its failure is modelled by `PushIos.TryNewModernSender`.
- Text.EqualsIgnoreCaseIsFoldEquality: folds ASCII letters only. Java's `equalsIgnoreCase` compares characters after `toUpperCase` and after `toLowerCase`, so it also equates non-ASCII pairs such as `ſ` and `s` or the Kelvin sign and `k`. The model treats those as different names.
- RequestSigning.SkipHeaderByKey: recognises `host` and `content-length` up to ASCII case only. A header spelled with a non-ASCII look-alike, such as `hoſt`, is skipped by the library but kept by the model.
- CaseInsensitiveMap.Get: keys are compared by their ASCII-lower-cased names and ordered by code point. `String.CASE_INSENSITIVE_ORDER` folds each UTF-16 unit with `toUpperCase` and then `toLowerCase`, so the two agree on ASCII names only. `CaseInsensitiveMap.Put`, `CaseInsensitiveMap.PutSorted` and `RequestSigning.HeaderArrayToMap` share this limit.
- Resolvers.Normalize: lower-cases ASCII capitals only, as the root locale does. Kotlin's `toLowerCase()` uses the default locale and full Unicode, so it also lower-cases non-ASCII letters, can change the length (`İ` becomes two characters), and under a Turkish locale maps `I` to the dotless `ı`. The model's length-preserving claim holds only for the root-locale, ASCII case.
- Resolvers.NormalizeKeepsNormal: a "normal" name is one without ASCII capitals or `_`. A name with non-ASCII capitals, such as `É`, counts as normal and stays unchanged in the model, although Kotlin would lower-case it.
- PushIos.SendMessage: does not model `buildWithDefaultMaximumLength`, which shortens the alert or rejects a payload over the APNs length limit. The payload is the `Json` datatype, and its JSON rendering and length are left out.
- PushIos.SendWithBuilder: does not model the same length check on the builder's payload, for the same reason.

## Findings

| source | as written | input that shows it | evidently intended | confidence | as-written member | corrected member |
|---|---|---|---|---|---|---|
| src/main/kotlin/br/com/simpli/ws/PushAndroid.kt:36 | the legacy FCM endpoint is `https://fcm.googleapis.comfcm/send`, missing the `/` between host and path | any sender built with `firebase = true, legacy = true`: it posts to host `fcm.googleapis.comfcm` | `https://fcm.googleapis.com/fcm/send`, on the same host as the v1 endpoint | not executed | PushAndroid.FcmLegacyEndpointAsWrittenHasWrongHost | PushAndroid.FcmLegacyEndpointHasFcmHost |
