/** `resolveRegion` and `resolveCredentials`: the fallback orders the AWS
    clients use to pick a region and a credentials provider. */
module Resolvers {

  import opened Wrappers
  import opened Text

  /** A constant of the SDK's `Regions` enum, known by its name
      (`us-east-1`, ...). */
  datatype Region = Region(name: string)

  /** `Regions.fromName`: the first constant with exactly this name. */
  function FromName(catalogue: seq<Region>, name: string): (r: Option<Region>)
    ensures r.Some? ==> r.value in catalogue && r.value.name == name
    ensures r.None? <==> forall i :: 0 <= i < |catalogue| ==> catalogue[i].name != name
  {
    if |catalogue| == 0 then None
    else if catalogue[0].name == name then Some(catalogue[0])
    else FromName(catalogue[1..], name)
  }

  /** The spelling `fromName` expects: lower case, `-` between words. */
  predicate IsNormal(s: string) {
    forall i :: 0 <= i < |s| ==> !IsUpper(s[i]) && s[i] != '_'
  }

  /** `toLowerCase().replace('_', '-')`. */
  function Normalize(s: string): (r: string)
    ensures |r| == |s| && IsNormal(r)
  {
    ReplaceChar(LowerString(s), '_', '-')
  }

  /** Normalizing leaves normal names alone, so it is idempotent. */
  lemma NormalizeKeepsNormal(s: string)
    ensures IsNormal(s) ==> Normalize(s) == s
    ensures Normalize(Normalize(s)) == Normalize(s)
  {
    var n := Normalize(s);
    assert forall i :: 0 <= i < |n| ==> Normalize(n)[i] == n[i];
    if IsNormal(s) {
      assert forall i :: 0 <= i < |s| ==> Normalize(s)[i] == s[i];
    }
  }

  /** The enum constant's own spelling of a region name: `US_EAST_1`. */
  function ConstantName(s: string): string {
    ReplaceChar(UpperString(s), '-', '_')
  }

  /** A region name and its constant spelling normalize to the name. */
  lemma ConstantNameNormalizes(s: string)
    requires IsNormal(s)
    ensures Normalize(ConstantName(s)) == s
  {
    var c := ConstantName(s);
    forall i | 0 <= i < |s|
      ensures Normalize(c)[i] == s[i]
    {
      assert c[i] == (if Upper(s[i]) == '-' then '_' else Upper(s[i]));
    }
  }

  /** Why no region could be chosen: the default provider chain found none,
      or named one the enum does not know. */
  datatype RegionError = NoDefaultRegion | UnknownRegion(name: string)

  /** `Regions.fromName(DefaultAwsRegionProviderChain().region)`; `chain`
      is the region name the provider chain yields, if any. Both failures
      propagate. */
  function DefaultRegion(catalogue: seq<Region>, chain: Option<string>): (r: Result<Region, RegionError>)
    ensures r.Success? <==> chain.Some? && FromName(catalogue, chain.value).Some?
    ensures r.Success? ==> r.value in catalogue && r.value.name == chain.value
    ensures chain.None? ==> r == Failure(NoDefaultRegion)
    ensures chain.Some? && r.Failure? ==> r.error == UnknownRegion(chain.value)
  {
    match chain
    case None => Failure(NoDefaultRegion)
    case Some(name) =>
      match FromName(catalogue, name)
      case None => Failure(UnknownRegion(name))
      case Some(region) => Success(region)
  }

  /** `resolveRegion(enum, string)`: the enum if given; else the string,
      normalized, if it names a region; else the default chain's region. */
  function ResolveRegion(constant: Option<Region>, text: Option<string>, catalogue: seq<Region>, chain: Option<string>)
    : (r: Result<Region, RegionError>)
    ensures constant.Some? ==> r == Success(constant.value)
    ensures constant.None? && text.Some? && FromName(catalogue, Normalize(text.value)).Some? ==>
              r.Success? && r.value in catalogue && r.value.name == Normalize(text.value)
    ensures constant.None? && (text.None? || FromName(catalogue, Normalize(text.value)).None?) ==>
              r == DefaultRegion(catalogue, chain)
    ensures r.Success? ==> r.value in catalogue || constant == Some(r.value)
  {
    if constant.Some? then Success(constant.value)
    else
      var named := if text.Some? then FromName(catalogue, Normalize(text.value)) else None;
      if named.Some? then Success(named.value) else DefaultRegion(catalogue, chain)
  }

  /** A region is found by its name and by its constant's spelling,
      whatever the default chain would say. */
  lemma ResolveRegionByName(region: Region, catalogue: seq<Region>, chain: Option<string>)
    requires region in catalogue && IsNormal(region.name)
    requires forall i :: 0 <= i < |catalogue| && catalogue[i].name == region.name ==> catalogue[i] == region
    ensures ResolveRegion(None, Some(region.name), catalogue, chain) == Success(region)
    ensures ResolveRegion(None, Some(ConstantName(region.name)), catalogue, chain) == Success(region)
  {
    NormalizeKeepsNormal(region.name);
    ConstantNameNormalizes(region.name);
  }

  // ----- credentials -----

  datatype Credentials = Credentials(accessKey: string, secretKey: string)

  /** A fixed key pair, or the SDK's default provider chain. */
  datatype CredentialsProvider = Static(credentials: Credentials) | DefaultChain

  type Properties = map<string, string>

  /** The class path: the properties stored at a resource path, or nothing
      when the resource is missing or unreadable. */
  type Resources = string -> Option<Properties>

  /** Class-path lookups are absolute: a leading `/` is added when missing. */
  function AdjustPath(p: string): (r: string)
    ensures |r| > 0 && r[0] == '/'
    ensures r == p <==> |p| > 0 && p[0] == '/'
    ensures r != p ==> r == "/" + p
  {
    if |p| > 0 && p[0] == '/' then p else "/" + p
  }

  lemma AdjustPathIdempotent(p: string)
    ensures AdjustPath(AdjustPath(p)) == AdjustPath(p)
  {
  }

  /** `PropertiesCredentials`: both `accessKey` and `secretKey` must be set. */
  function PropertiesCredentials(props: Properties): (r: Option<Credentials>)
    ensures r.Some? <==> "accessKey" in props && "secretKey" in props
    ensures r.Some? ==> r.value.accessKey == props["accessKey"] && r.value.secretKey == props["secretKey"]
  {
    if "accessKey" in props && "secretKey" in props
    then Some(Credentials(props["accessKey"], props["secretKey"]))
    else None
  }

  /** `resolveCredentials(path)`: the key pair in the properties file at
      `path`; the default chain when there is no path or the file cannot
      be loaded. */
  function ResolveCredentials(path: Option<string>, resources: Resources): (r: CredentialsProvider)
    ensures path.None? ==> r == DefaultChain
    ensures r.Static? <==>
              path.Some? && resources(AdjustPath(path.value)).Some?
              && PropertiesCredentials(resources(AdjustPath(path.value)).value).Some?
    ensures r.Static? ==> r.credentials == PropertiesCredentials(resources(AdjustPath(path.value)).value).value
  {
    match path
    case None => DefaultChain
    case Some(p) =>
      match resources(AdjustPath(p))
      case None => DefaultChain
      case Some(props) =>
        match PropertiesCredentials(props)
        case None => DefaultChain
        case Some(c) => Static(c)
  }

  /** A path with or without its leading `/` names the same resource. */
  lemma ResolveCredentialsIgnoresLeadingSlash(p: string, resources: Resources)
    requires |p| == 0 || p[0] != '/'
    ensures ResolveCredentials(Some(p), resources) == ResolveCredentials(Some("/" + p), resources)
  {
    assert AdjustPath("/" + p) == "/" + p;
  }
}
