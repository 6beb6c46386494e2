/** `AWSRequestSigningApacheInterceptor`: an Apache request is copied into
    an AWS signable request, signed, and the signed headers and content are
    copied back. The helpers turn header arrays and query parameters into
    case-insensitive tree maps and back. */
module RequestSigning {

  import opened Wrappers
  import opened Text
  import opened CaseInsensitiveMap

  datatype Header = Header(name: string, value: string)

  /** A decoded query parameter; `?flag` has a null value. */
  datatype Param = Param(name: string, value: Option<string>)

  // ----- skipHeader -----

  /** Headers the signer must not see: `Content-Length: 0` and `Host`, any
      case of the name. */
  predicate SkipHeader(h: Header) {
    (EqualsIgnoreCase("content-length", h.name) && h.value == "0")
    || EqualsIgnoreCase("host", h.name)
  }

  /** Skipping depends only on the header's key and value. */
  lemma SkipHeaderByKey(h: Header)
    ensures SkipHeader(h) <==>
            Fold(h.name) == "host" || (Fold(h.name) == "content-length" && h.value == "0")
  {
    EqualsIgnoreCaseIsFoldEquality("content-length", h.name);
    EqualsIgnoreCaseIsFoldEquality("host", h.name);
    assert LowerString("host") == "host";
    assert LowerString("content-length") == "content-length";
  }

  predicate Skipped(e: Entry<string>) {
    SkipHeader(Header(e.name, e.value))
  }

  // ----- headerArrayToMap -----

  /** Header `h` is copied into the map under key `k`. */
  predicate Copied(h: Header, k: string) {
    !SkipHeader(h) && Fold(h.name) == k
  }

  /** The first header copied under `k`: its name is the one the map keeps. */
  function FirstCopied(hs: seq<Header>, k: string): (r: Option<nat>)
    ensures r.Some? ==> r.value < |hs| && Copied(hs[r.value], k)
    ensures r.Some? ==> forall j :: 0 <= j < r.value ==> !Copied(hs[j], k)
    ensures r.None? ==> forall j :: 0 <= j < |hs| ==> !Copied(hs[j], k)
  {
    if |hs| == 0 then None
    else
      match FirstCopied(hs[..|hs| - 1], k)
      case Some(i) => Some(i)
      case None => if Copied(hs[|hs| - 1], k) then Some(|hs| - 1) else None
  }

  /** The last header copied under `k`: its value is the one the map keeps. */
  function LastCopied(hs: seq<Header>, k: string): (r: Option<nat>)
    ensures r.Some? ==> r.value < |hs| && Copied(hs[r.value], k)
    ensures r.Some? ==> forall j :: r.value < j < |hs| ==> !Copied(hs[j], k)
    ensures r.None? ==> forall j :: 0 <= j < |hs| ==> !Copied(hs[j], k)
  {
    if |hs| == 0 then None
    else if Copied(hs[|hs| - 1], k) then Some(|hs| - 1)
    else LastCopied(hs[..|hs| - 1], k)
  }

  /** What the header map holds under `name`: the first spelling and the
      last value of the copied headers with that key. */
  function HeaderReference(hs: seq<Header>, name: string): Option<Entry<string>> {
    match LastCopied(hs, Fold(name))
    case None => None
    case Some(i) =>
      var first := FirstCopied(hs, Fold(name));
      if first.Some? then Some(Entry(hs[first.value].name, hs[i].value))
      else assert false; None
  }

  /** `headerArrayToMap`: the headers, minus skipped ones, in a
      case-insensitive tree map. */
  function HeaderArrayToMap(hs: seq<Header>): (r: seq<Entry<string>>)
    ensures Sorted(r)
    ensures |r| <= |hs|
  {
    if |hs| == 0 then []
    else
      var m := HeaderArrayToMap(hs[..|hs| - 1]);
      var h := hs[|hs| - 1];
      if SkipHeader(h) then m
      else
        PutSorted(m, h.name, h.value);
        Put(m, h.name, h.value)
  }

  lemma GetByKey<V>(es: seq<Entry<V>>, a: string, b: string)
    requires Fold(a) == Fold(b)
    ensures Get(es, a) == Get(es, b)
  {
  }

  /** Appending a header that is not copied under the name's key leaves the
      reference unchanged. */
  lemma HeaderReferenceSkip(hs: seq<Header>, name: string)
    requires |hs| > 0 && !Copied(hs[|hs| - 1], Fold(name))
    ensures HeaderReference(hs, name) == HeaderReference(hs[..|hs| - 1], name)
  {
    var init := hs[..|hs| - 1];
    var k := Fold(name);
    assert LastCopied(hs, k) == LastCopied(init, k);
    assert FirstCopied(hs, k) == FirstCopied(init, k);
    if FirstCopied(init, k).Some? {
      assert hs[FirstCopied(init, k).value] == init[FirstCopied(init, k).value];
    }
    if LastCopied(init, k).Some? {
      assert hs[LastCopied(init, k).value] == init[LastCopied(init, k).value];
    }
  }

  /** Appending a header copied under the name's key takes its value, and
      its spelling when the key is new. */
  lemma HeaderReferenceCopy(hs: seq<Header>, name: string)
    requires |hs| > 0 && Copied(hs[|hs| - 1], Fold(name))
    ensures var before := HeaderReference(hs[..|hs| - 1], name);
            var h := hs[|hs| - 1];
            HeaderReference(hs, name) == Some(Entry(if before.Some? then before.value.name else h.name, h.value))
  {
    var init := hs[..|hs| - 1];
    var k := Fold(name);
    assert LastCopied(hs, k) == Some(|hs| - 1);
    if FirstCopied(init, k).Some? {
      assert hs[FirstCopied(init, k).value] == init[FirstCopied(init, k).value];
      assert LastCopied(init, k).Some?;
    } else {
      assert LastCopied(init, k).None?;
    }
  }

  /** Looking a name up in the header map finds the first spelling and the
      last value among the non-skipped headers with that name, ignoring case. */
  lemma {:induction false} HeaderArrayToMapLookup(hs: seq<Header>, name: string)
    ensures Get(HeaderArrayToMap(hs), name) == HeaderReference(hs, name)
    decreases |hs|
  {
    if |hs| > 0 {
      var init := hs[..|hs| - 1];
      var h := hs[|hs| - 1];
      var m := HeaderArrayToMap(init);
      HeaderArrayToMapLookup(init, name);
      if !Copied(h, Fold(name)) {
        HeaderReferenceSkip(hs, name);
        if !SkipHeader(h) {
          PutOther(m, h.name, h.value, name);
        }
      } else {
        HeaderReferenceCopy(hs, name);
        PutGet(m, h.name, h.value);
        GetByKey(m, h.name, name);
        GetByKey(Put(m, h.name, h.value), h.name, name);
      }
    }
  }

  /** The map has a key for a name exactly when some header with that name
      (ignoring case) is not skipped. */
  lemma {:induction false} HeaderMapKeys(hs: seq<Header>, name: string)
    ensures Fold(name) in Keys(HeaderArrayToMap(hs)) <==>
            exists j :: 0 <= j < |hs| && !SkipHeader(hs[j]) && Fold(hs[j].name) == Fold(name)
  {
    HeaderArrayToMapLookup(hs, name);
    var last := LastCopied(hs, Fold(name));
    if last.Some? {
      assert Copied(hs[last.value], Fold(name));
    }
  }

  /** Every entry `put` leaves is an old one or carries the new value under
      the put key. */
  lemma {:induction false} PutEntries<V>(es: seq<Entry<V>>, name: string, v: V)
    ensures forall e :: e in Put(es, name, v) ==> e in es || (e.value == v && Fold(e.name) == Fold(name))
    decreases |es|
  {
    if |es| > 0 {
      var first := Fold(es[0].name);
      if first != Fold(name) && !LexLess(Fold(name), first) {
        PutEntries(es[1..], name, v);
        assert forall e :: e in es[1..] ==> e in es;
      }
    }
  }

  /** The signer never sees a skipped header, even under another spelling. */
  lemma {:induction false} HeaderMapHasNoSkipped(hs: seq<Header>)
    ensures forall e :: e in HeaderArrayToMap(hs) ==> !Skipped(e)
    decreases |hs|
  {
    if |hs| > 0 {
      var init := hs[..|hs| - 1];
      var h := hs[|hs| - 1];
      HeaderMapHasNoSkipped(init);
      if !SkipHeader(h) {
        var m := HeaderArrayToMap(init);
        PutEntries(m, h.name, h.value);
        SkipHeaderByKey(h);
        forall e | e in Put(m, h.name, h.value)
          ensures !Skipped(e)
        {
          SkipHeaderByKey(Header(e.name, e.value));
        }
      }
    }
  }

  // ----- mapToHeaderArray -----

  /** `mapToHeaderArray`: one header per entry, in the map's order. */
  function MapToHeaderArray(es: seq<Entry<string>>): (r: seq<Header>)
    ensures |r| == |es|
    ensures forall i :: 0 <= i < |es| ==> r[i].name == es[i].name && r[i].value == es[i].value
    ensures Sorted(es) ==> forall i, j :: 0 <= i < j < |r| ==> LexLess(Fold(r[i].name), Fold(r[j].name))
  {
    seq(|es|, i requires 0 <= i < |es| => Header(es[i].name, es[i].value))
  }

  /** A sorted map without skipped entries survives the trip to a header
      array and back. */
  lemma {:induction false} HeaderMapRoundTrip(es: seq<Entry<string>>)
    requires Sorted(es)
    requires forall e :: e in es ==> !Skipped(e)
    ensures HeaderArrayToMap(MapToHeaderArray(es)) == es
    decreases |es|
  {
    if |es| > 0 {
      var init := es[..|es| - 1];
      var last := es[|es| - 1];
      RoundTripStep(es);
      HeaderMapRoundTrip(init);
      PutAbove(init, last);
    }
  }

  /** The facts one step of the round trip needs about the last entry. */
  lemma RoundTripStep(es: seq<Entry<string>>)
    requires |es| > 0 && Sorted(es)
    requires forall e :: e in es ==> !Skipped(e)
    ensures var hs := MapToHeaderArray(es);
            hs[..|hs| - 1] == MapToHeaderArray(es[..|es| - 1])
            && hs[|hs| - 1] == Header(es[|es| - 1].name, es[|es| - 1].value)
    ensures Sorted(es[..|es| - 1])
    ensures forall e :: e in es[..|es| - 1] ==> !Skipped(e)
    ensures !Skipped(es[|es| - 1])
    ensures es == es[..|es| - 1] + [es[|es| - 1]]
  {
    var init := es[..|es| - 1];
    assert forall i :: 0 <= i < |init| ==> init[i] == es[i];
    assert es[|es| - 1] in es;
  }

  /** Copying the signed headers back and reading them again changes
      nothing: the header map is a fixed point of the round trip. */
  lemma {:induction false} HeaderMapStable(hs: seq<Header>)
    ensures HeaderArrayToMap(MapToHeaderArray(HeaderArrayToMap(hs))) == HeaderArrayToMap(hs)
  {
    HeaderMapHasNoSkipped(hs);
    HeaderMapRoundTrip(HeaderArrayToMap(hs));
  }

  // ----- nvpToMapParams -----

  /** The values of the parameters named `k` (ignoring case), in order. */
  function ValuesFor(ps: seq<Param>, k: string): (r: seq<Option<string>>)
    ensures |r| <= |ps|
    ensures forall v :: v in r ==> exists j :: 0 <= j < |ps| && Fold(ps[j].name) == k && ps[j].value == v
  {
    if |ps| == 0 then []
    else
      var init := ps[..|ps| - 1];
      var p := ps[|ps| - 1];
      var rest := ValuesFor(init, k);
      assert forall j :: 0 <= j < |init| ==> init[j] == ps[j];
      rest + (if Fold(p.name) == k then [p.value] else [])
  }

  /** The first parameter named `k`: its spelling is the one the map keeps. */
  function FirstParam(ps: seq<Param>, k: string): (r: Option<nat>)
    ensures r.Some? ==> r.value < |ps| && Fold(ps[r.value].name) == k
    ensures r.Some? ==> forall j :: 0 <= j < r.value ==> Fold(ps[j].name) != k
    ensures r.None? ==> forall j :: 0 <= j < |ps| ==> Fold(ps[j].name) != k
  {
    if |ps| == 0 then None
    else
      match FirstParam(ps[..|ps| - 1], k)
      case Some(i) => Some(i)
      case None => if Fold(ps[|ps| - 1].name) == k then Some(|ps| - 1) else None
  }

  /** What the parameter map holds under `name`. */
  function ParamReference(ps: seq<Param>, name: string): Option<Entry<seq<Option<string>>>> {
    match FirstParam(ps, Fold(name))
    case None => None
    case Some(i) => Some(Entry(ps[i].name, ValuesFor(ps, Fold(name))))
  }

  /** The list already filed under `name`, or a fresh empty one. */
  function ValuesOrEmpty(es: seq<Entry<seq<Option<string>>>>, name: string): seq<Option<string>> {
    match Get(es, name)
    case None => []
    case Some(e) => e.value
  }

  /** `nvpToMapParams`: a case-insensitive multimap from parameter names to
      their values in query order. */
  function NvpToMapParams(ps: seq<Param>): (r: seq<Entry<seq<Option<string>>>>)
    ensures Sorted(r)
    ensures |r| <= |ps|
  {
    if |ps| == 0 then []
    else
      var m := NvpToMapParams(ps[..|ps| - 1]);
      var p := ps[|ps| - 1];
      PutSorted(m, p.name, ValuesOrEmpty(m, p.name) + [p.value]);
      Put(m, p.name, ValuesOrEmpty(m, p.name) + [p.value])
  }

  lemma ParamReferenceOther(ps: seq<Param>, name: string)
    requires |ps| > 0 && Fold(ps[|ps| - 1].name) != Fold(name)
    ensures ParamReference(ps, name) == ParamReference(ps[..|ps| - 1], name)
  {
    var init := ps[..|ps| - 1];
    var k := Fold(name);
    assert FirstParam(ps, k) == FirstParam(init, k);
    assert ValuesFor(ps, k) == ValuesFor(init, k);
    if FirstParam(init, k).Some? {
      assert ps[FirstParam(init, k).value] == init[FirstParam(init, k).value];
    }
  }

  /** A parameter with the name's key appends its value, and supplies the
      spelling when the key is new. */
  lemma ParamReferenceAdd(ps: seq<Param>, name: string)
    requires |ps| > 0 && Fold(ps[|ps| - 1].name) == Fold(name)
    ensures var before := ParamReference(ps[..|ps| - 1], name);
            var p := ps[|ps| - 1];
            ParamReference(ps, name) ==
              Some(Entry(if before.Some? then before.value.name else p.name,
                         (if before.Some? then before.value.value else []) + [p.value]))
  {
    var init := ps[..|ps| - 1];
    var k := Fold(name);
    assert ValuesFor(ps, k) == ValuesFor(init, k) + [ps[|ps| - 1].value];
    if FirstParam(init, k).Some? {
      assert ps[FirstParam(init, k).value] == init[FirstParam(init, k).value];
    } else {
      ValuesForNone(init, k);
    }
  }

  lemma {:induction false} ValuesForNone(ps: seq<Param>, k: string)
    requires forall j :: 0 <= j < |ps| ==> Fold(ps[j].name) != k
    ensures ValuesFor(ps, k) == []
    decreases |ps|
  {
    if |ps| > 0 {
      ValuesForNone(ps[..|ps| - 1], k);
    }
  }

  /** Looking a name up in the parameter map finds the first spelling and
      every value given for that name, in order. */
  lemma {:induction false} NvpToMapParamsLookup(ps: seq<Param>, name: string)
    ensures Get(NvpToMapParams(ps), name) == ParamReference(ps, name)
    decreases |ps|
  {
    if |ps| > 0 {
      var init := ps[..|ps| - 1];
      var p := ps[|ps| - 1];
      var m := NvpToMapParams(init);
      var list := ValuesOrEmpty(m, p.name) + [p.value];
      NvpToMapParamsLookup(init, name);
      if Fold(p.name) != Fold(name) {
        ParamReferenceOther(ps, name);
        PutOther(m, p.name, list, name);
      } else {
        ParamReferenceAdd(ps, name);
        PutGet(m, p.name, list);
        GetByKey(m, p.name, name);
        GetByKey(Put(m, p.name, list), p.name, name);
      }
    }
  }

  /** Every value of every list of the map, in map order. */
  function AllValues(es: seq<Entry<seq<Option<string>>>>): seq<Option<string>> {
    if |es| == 0 then [] else es[0].value + AllValues(es[1..])
  }

  function ParamValues(ps: seq<Param>): seq<Option<string>> {
    seq(|ps|, i requires 0 <= i < |ps| => ps[i].value)
  }

  lemma AllValuesCons(e: Entry<seq<Option<string>>>, es: seq<Entry<seq<Option<string>>>>)
    ensures AllValues([e] + es) == e.value + AllValues(es)
  {
    assert ([e] + es)[1..] == es;
  }

  /** Putting list `v` under `name` swaps the list filed there (if any)
      for `v` in the map's values. */
  lemma {:induction false} PutValues(es: seq<Entry<seq<Option<string>>>>, name: string, v: seq<Option<string>>)
    requires Sorted(es)
    ensures multiset(AllValues(Put(es, name, v))) + multiset(ValuesOrEmpty(es, name)) ==
            multiset(AllValues(es)) + multiset(v)
    decreases |es|
  {
    if |es| == 0 {
      AllValuesCons(Entry(name, v), []);
    } else if Fold(es[0].name) == Fold(name) {
      PutValuesReplace(es, name, v);
    } else if LexLess(Fold(name), Fold(es[0].name)) {
      PutValuesInsert(es, name, v);
    } else {
      SortedTail(es);
      PutValues(es[1..], name, v);
      PutValuesSkip(es, name, v);
    }
  }

  lemma PutValuesReplace(es: seq<Entry<seq<Option<string>>>>, name: string, v: seq<Option<string>>)
    requires |es| > 0 && Fold(es[0].name) == Fold(name)
    ensures multiset(AllValues(Put(es, name, v))) + multiset(ValuesOrEmpty(es, name)) ==
            multiset(AllValues(es)) + multiset(v)
  {
    var tail := AllValues(es[1..]);
    assert Put(es, name, v) == [Entry(es[0].name, v)] + es[1..];
    AllValuesCons(Entry(es[0].name, v), es[1..]);
    assert AllValues(es) == es[0].value + tail;
    assert ValuesOrEmpty(es, name) == es[0].value;
    assert multiset(v + tail) == multiset(v) + multiset(tail);
    assert multiset(es[0].value + tail) == multiset(es[0].value) + multiset(tail);
  }

  lemma PutValuesInsert(es: seq<Entry<seq<Option<string>>>>, name: string, v: seq<Option<string>>)
    requires Sorted(es) && |es| > 0 && LexLess(Fold(name), Fold(es[0].name))
    ensures multiset(AllValues(Put(es, name, v))) + multiset(ValuesOrEmpty(es, name)) ==
            multiset(AllValues(es)) + multiset(v)
  {
    LexLessIrreflexive(Fold(name));
    assert Put(es, name, v) == [Entry(name, v)] + es;
    BelowFirst(es, Fold(name));
    AllValuesCons(Entry(name, v), es);
    assert ValuesOrEmpty(es, name) == [];
    assert multiset(v + AllValues(es)) == multiset(v) + multiset(AllValues(es));
  }

  lemma PutValuesSkip(es: seq<Entry<seq<Option<string>>>>, name: string, v: seq<Option<string>>)
    requires |es| > 0 && Fold(es[0].name) != Fold(name) && !LexLess(Fold(name), Fold(es[0].name))
    ensures multiset(AllValues(Put(es[1..], name, v))) + multiset(ValuesOrEmpty(es[1..], name)) ==
            multiset(AllValues(es[1..])) + multiset(v)
            ==>
            multiset(AllValues(Put(es, name, v))) + multiset(ValuesOrEmpty(es, name)) ==
            multiset(AllValues(es)) + multiset(v)
  {
    var rest := Put(es[1..], name, v);
    assert Put(es, name, v) == [es[0]] + rest;
    AllValuesCons(es[0], rest);
    assert AllValues(es) == es[0].value + AllValues(es[1..]);
    assert ValuesOrEmpty(es, name) == ValuesOrEmpty(es[1..], name);
    var head := multiset(es[0].value);
    var after := multiset(AllValues(rest));
    var before := multiset(AllValues(es[1..]));
    var replaced := multiset(ValuesOrEmpty(es[1..], name));
    assert multiset(AllValues(Put(es, name, v))) == head + after;
    assert multiset(AllValues(es)) == head + before;
    if after + replaced == before + multiset(v) {
      assert head + after + replaced == head + (after + replaced);
    }
  }

  /** No query value is lost or duplicated: the map's lists hold exactly the
      parameters' values. */
  lemma {:induction false} NvpToMapParamsKeepsValues(ps: seq<Param>)
    ensures multiset(AllValues(NvpToMapParams(ps))) == multiset(ParamValues(ps))
    ensures |AllValues(NvpToMapParams(ps))| == |ps|
    decreases |ps|
  {
    if |ps| > 0 {
      var init := ps[..|ps| - 1];
      var p := ps[|ps| - 1];
      var m := NvpToMapParams(init);
      var current := ValuesOrEmpty(m, p.name);
      NvpToMapParamsKeepsValues(init);
      assert NvpToMapParams(ps) == Put(m, p.name, current + [p.value]);
      PutValues(m, p.name, current + [p.value]);
      var now := multiset(AllValues(NvpToMapParams(ps)));
      var was := multiset(AllValues(m));
      assert now + multiset(current) == was + (multiset(current) + multiset{p.value});
      MultisetCancel(now, was + multiset{p.value}, multiset(current));
      ParamValuesSnoc(ps);
    }
    assert |multiset(AllValues(NvpToMapParams(ps)))| == |AllValues(NvpToMapParams(ps))|;
    assert |multiset(ParamValues(ps))| == |ps|;
  }

  lemma MultisetCancel<T>(a: multiset<T>, b: multiset<T>, c: multiset<T>)
    requires a + c == b + c
    ensures a == b
  {
    forall x
      ensures a[x] == b[x]
    {
      assert (a + c)[x] == (b + c)[x];
    }
  }

  lemma ParamValuesSnoc(ps: seq<Param>)
    requires |ps| > 0
    ensures ParamValues(ps) == ParamValues(ps[..|ps| - 1]) + [ps[|ps| - 1].value]
  {
  }

  // ----- process -----

  type Content = seq<Byte>

  datatype Entity = Entity(content: Option<Content>)

  /** Whether the request can carry an entity and, if so, which. */
  datatype Body = NotEnclosing | Enclosing(entity: Option<Entity>)

  datatype HttpRequest = HttpRequest(verb: string, uri: string, headers: seq<Header>, body: Body)

  /** `DefaultRequest` as the signer receives it. */
  datatype SignableRequest = SignableRequest(
    service: string,
    endpoint: Option<string>,
    httpMethod: string,
    resourcePath: string,
    content: Option<Content>,
    parameters: seq<Entry<seq<Option<string>>>>,
    headers: seq<Entry<string>>)

  /** What `URIBuilder` makes of a request URI: the raw path and the query
      parameters, or nothing when the URI is malformed. */
  datatype ParsedUri = ParsedUri(rawPath: string, query: seq<Param>)

  type UriParser = string -> Option<ParsedUri>

  /** `signer.sign(request, credentials)` with the credentials bound. */
  type Signer = SignableRequest -> SignableRequest

  datatype SigningError = InvalidUri

  predicate CarriesEntity(b: Body) {
    b.Enclosing? && b.entity.Some?
  }

  /** The copy of the Apache request that is handed to the signer. */
  function ToSignable(service: string, req: HttpRequest, targetHost: Option<string>, uri: ParsedUri): (s: SignableRequest)
    ensures s.service == service && s.endpoint == targetHost && s.httpMethod == req.verb
    ensures s.resourcePath == uri.rawPath
    ensures s.content == if CarriesEntity(req.body) then req.body.entity.value.content else None
    ensures s.headers == HeaderArrayToMap(req.headers) && s.parameters == NvpToMapParams(uri.query)
    ensures Sorted(s.headers) && Sorted(s.parameters)
  {
    SignableRequest(
      service, targetHost, req.verb, uri.rawPath,
      if CarriesEntity(req.body) then req.body.entity.value.content else None,
      NvpToMapParams(uri.query),
      HeaderArrayToMap(req.headers))
  }

  /** `process`: sign the request and copy the signed headers and content
      back. A malformed URI is an error; an enclosed entity is replaced by
      one holding the signed content; everything else is left alone. */
  function Process(service: string, signer: Signer, parse: UriParser, req: HttpRequest, targetHost: Option<string>)
    : (r: Result<HttpRequest, SigningError>)
    ensures r.Failure? <==> parse(req.uri).None?
    ensures r.Success? ==> r.value.verb == req.verb && r.value.uri == req.uri
    ensures r.Success? ==>
              var signed := signer(ToSignable(service, req, targetHost, parse(req.uri).value));
              |r.value.headers| == |signed.headers|
              && (forall i :: 0 <= i < |signed.headers| ==>
                    r.value.headers[i] == Header(signed.headers[i].name, signed.headers[i].value))
              && r.value.body == if CarriesEntity(req.body) then Enclosing(Some(Entity(signed.content))) else req.body
  {
    match parse(req.uri)
    case None => Failure(InvalidUri)
    case Some(uri) =>
      var signed := signer(ToSignable(service, req, targetHost, uri));
      var body := if CarriesEntity(req.body) then Enclosing(Some(Entity(signed.content))) else req.body;
      Success(req.(headers := MapToHeaderArray(signed.headers), body := body))
  }

  /** With a signer that adds nothing, processing only drops the skipped
      headers and folds repeated names together. */
  lemma {:induction false} ProcessWithIdentitySigner(service: string, parse: UriParser, req: HttpRequest, targetHost: Option<string>)
    requires parse(req.uri).Some?
    ensures var r := Process(service, s => s, parse, req, targetHost);
            r.Success?
            && HeaderArrayToMap(r.value.headers) == HeaderArrayToMap(req.headers)
            && forall h :: h in r.value.headers ==> !SkipHeader(h)
  {
    var r := Process(service, s => s, parse, req, targetHost);
    HeaderMapStable(req.headers);
    HeaderMapHasNoSkipped(req.headers);
    var m := HeaderArrayToMap(req.headers);
    assert r.value.headers == MapToHeaderArray(m);
    forall h | h in r.value.headers
      ensures !SkipHeader(h)
    {
      var i :| 0 <= i < |r.value.headers| && r.value.headers[i] == h;
      assert m[i] in m;
    }
  }
}
