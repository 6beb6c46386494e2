/** `AwsFileManager`: object paths, the URLs handed back to callers, and the
    effect of upload, move, list and delete on one S3 bucket, which is
    modelled as a map from object keys to contents. */
module FileManager {

  import opened Wrappers
  import opened Text
  import opened Resolvers

  /** The objects of the bucket: key to contents. */
  type Bucket = map<string, seq<Byte>>

  datatype FileManager = FileManager(bucketName: string, region: Region, provider: CredentialsProvider)

  /** The private constructor every public one delegates to: the region and
      the credentials provider are resolved once, and a region failure
      propagates. */
  function NewFileManager(
    bucketName: string, constant: Option<Region>, text: Option<string>, credentialsFile: Option<string>,
    catalogue: seq<Region>, chain: Option<string>, resources: Resources)
    : (r: Result<FileManager, RegionError>)
    ensures r.Success? <==> ResolveRegion(constant, text, catalogue, chain).Success?
    ensures r.Success? ==> r.value.bucketName == bucketName
    ensures r.Success? ==> r.value.region == ResolveRegion(constant, text, catalogue, chain).value
    ensures r.Success? ==> r.value.provider == ResolveCredentials(credentialsFile, resources)
    ensures r.Failure? ==> r.error == ResolveRegion(constant, text, catalogue, chain).error
  {
    var region :- ResolveRegion(constant, text, catalogue, chain);
    Success(FileManager(bucketName, region, ResolveCredentials(credentialsFile, resources)))
  }

  // ----- paths and URLs -----

  /** Kotlin `filterNotNull`. */
  function NonNull(xs: seq<Option<string>>): (r: seq<string>)
    ensures |r| <= |xs|
    ensures forall s :: s in r <==> Some(s) in xs
  {
    if |xs| == 0 then []
    else
      var rest := NonNull(xs[1..]);
      assert forall o :: o in xs <==> o == xs[0] || o in xs[1..];
      if xs[0].Some? then [xs[0].value] + rest else rest
  }

  /** `getPath(vararg prefixes)`: the non-null segments joined with `/`. */
  function GetPath(segments: seq<Option<string>>): string {
    Join(NonNull(segments), "/")
  }

  /** `getPath(folder, filename)`. */
  function Path(folder: Option<string>, filename: string): (r: string)
    ensures folder.None? ==> r == filename
    ensures folder.Some? ==> r == folder.value + "/" + filename
  {
    var segments := [folder, Some(filename)];
    assert segments[1..] == [Some(filename)];
    assert [Some(filename)][1..] == [];
    assert NonNull([Some(filename)]) == [filename];
    assert NonNull(segments) == if folder.Some? then [folder.value, filename] else [filename];
    assert folder.Some? ==> Join([folder.value, filename], "/") == folder.value + "/" + filename by {
      if folder.Some? {
        var parts := [folder.value, filename];
        assert parts[1..] == [filename];
      }
    }
    GetPath(segments)
  }

  /** The segments can be read back from a path when none holds a `/`. */
  lemma {:induction false} GetPathSplits(segments: seq<Option<string>>)
    requires exists i :: 0 <= i < |segments| && segments[i].Some?
    requires forall i :: 0 <= i < |segments| && segments[i].Some? ==> '/' !in segments[i].value
    ensures Split(GetPath(segments), '/') == NonNull(segments)
  {
    var parts := NonNull(segments);
    var i :| 0 <= i < |segments| && segments[i].Some?;
    assert segments[i] in segments;
    assert segments[i].value in parts;
    forall j | 0 <= j < |parts|
      ensures '/' !in parts[j]
    {
      assert parts[j] in parts;
    }
    SplitJoin(parts, '/');
  }

  /** `getEndpoint()`. */
  function Endpoint(region: Region): (r: string)
    ensures r == "https://s3-" + region.name + ".amazonaws.com/"
  {
    "https://s3-" + region.name + ".amazonaws.com/"
  }

  /** The URL `upload` and `move` return for an object path. */
  function ObjectUrl(fm: FileManager, path: string): string {
    Endpoint(fm.region) + fm.bucketName + "/" + path
  }

  /** Reading a URL back: its bucket (fourth segment) and object key (the
      rest). */
  function BucketOfUrl(url: string): Option<string> {
    var parts := Split(url, '/');
    if |parts| >= 5 then Some(parts[3]) else None
  }

  function KeyOfUrl(url: string): Option<string> {
    var parts := Split(url, '/');
    if |parts| >= 5 then Some(Join(parts[4..], "/")) else None
  }

  lemma SplitPlain(x: string, d: char)
    requires d !in x
    ensures Split(x, d) == [x]
  {
    SplitAfterPlainPrefix(x, "", d);
    assert x + "" == x;
  }

  /** A leading segment without the separator comes off first. */
  lemma SplitSegment(x: string, rest: string, d: char)
    requires d !in x
    ensures Split(x + [d] + rest, d) == [x] + Split(rest, d)
  {
    SplitAppend(x, rest, d);
    SplitPlain(x, d);
  }

  /** The URL of an object names its bucket and its key, whatever the key. */
  lemma ObjectUrlNamesObject(fm: FileManager, path: string)
    requires '/' !in fm.region.name && '/' !in fm.bucketName
    ensures BucketOfUrl(ObjectUrl(fm, path)) == Some(fm.bucketName)
    ensures KeyOfUrl(ObjectUrl(fm, path)) == Some(path)
  {
    var host := "s3-" + fm.region.name + ".amazonaws.com";
    var bucket := fm.bucketName;
    var s4 := bucket + ['/'] + path;
    var s3 := host + ['/'] + s4;
    var s2 := "" + ['/'] + s3;
    var url := "https:" + ['/'] + s2;
    assert ObjectUrl(fm, path) == url by {
      assert "https://s3-" == "https:" + ['/'] + ("" + ['/'] + "s3-");
      assert ".amazonaws.com/" == ".amazonaws.com" + ['/'];
    }
    assert '/' !in host by {
      assert forall i :: 0 <= i < |host| ==> host[i] != '/';
    }
    SplitSegment(bucket, path, '/');
    SplitSegment(host, s4, '/');
    SplitSegment("", s3, '/');
    SplitSegment("https:", s2, '/');
    var parts := Split(url, '/');
    assert parts == ["https:", "", host, bucket] + Split(path, '/');
    assert parts[4..] == Split(path, '/');
    JoinSplit(path, '/');
  }

  // ----- bucket operations -----

  /** `upload(folder, filename, input)`: store the contents at the path and
      return the object's URL. */
  function Upload(fm: FileManager, bucket: Bucket, folder: Option<string>, filename: string, content: seq<Byte>)
    : (r: (Bucket, string))
    ensures Path(folder, filename) in r.0 && r.0[Path(folder, filename)] == content
    ensures forall k :: k != Path(folder, filename) ==> (k in r.0 <==> k in bucket)
    ensures forall k :: k != Path(folder, filename) && k in bucket ==> r.0[k] == bucket[k]
    ensures r.1 == ObjectUrl(fm, Path(folder, filename))
  {
    var path := Path(folder, filename);
    (bucket[path := content], ObjectUrl(fm, path))
  }

  /** The byte-array overload: the same upload. */
  function UploadBytes(fm: FileManager, bucket: Bucket, folder: Option<string>, filename: string, file: seq<Byte>)
    : (r: (Bucket, string))
    ensures Path(folder, filename) in r.0 && r.0[Path(folder, filename)] == file
    ensures forall k :: k != Path(folder, filename) ==> (k in r.0 <==> k in bucket)
    ensures r == Upload(fm, bucket, folder, filename, file)
  {
    Upload(fm, bucket, folder, filename, file)
  }

  datatype S3Error = NoSuchKey(key: string)

  /** `move`: copy the object to the new path, then delete the old path, and
      return the new URL. Copying a missing object fails and nothing is
      deleted. */
  function Move(fm: FileManager, bucket: Bucket, folder: Option<string>, filename: string,
                newFolder: Option<string>, newFilename: string)
    : (r: Result<(Bucket, string), S3Error>)
    ensures r.Failure? <==> Path(folder, filename) !in bucket
    ensures r.Failure? ==> r.error == NoSuchKey(Path(folder, filename))
    ensures r.Success? ==> Path(folder, filename) !in r.value.0
    ensures r.Success? && Path(folder, filename) != Path(newFolder, newFilename) ==>
              Path(newFolder, newFilename) in r.value.0
              && r.value.0[Path(newFolder, newFilename)] == bucket[Path(folder, filename)]
    ensures r.Success? ==> forall k :: k != Path(folder, filename) && k != Path(newFolder, newFilename) ==>
              (k in r.value.0 <==> k in bucket) && (k in bucket ==> r.value.0[k] == bucket[k])
    ensures r.Success? ==> r.value.1 == ObjectUrl(fm, Path(newFolder, newFilename))
  {
    var path := Path(folder, filename);
    var newPath := Path(newFolder, newFilename);
    if path !in bucket then Failure(NoSuchKey(path))
    else
      var copied := bucket[newPath := bucket[path]];
      Success((copied - {path}, ObjectUrl(fm, newPath)))
  }

  /** Moving an object to a free path and back restores the bucket. */
  lemma MoveThenMoveBack(fm: FileManager, bucket: Bucket, folder: Option<string>, filename: string,
                         newFolder: Option<string>, newFilename: string)
    requires Path(folder, filename) in bucket
    requires Path(newFolder, newFilename) !in bucket
    ensures var there := Move(fm, bucket, folder, filename, newFolder, newFilename);
            there.Success?
            && Move(fm, there.value.0, newFolder, newFilename, folder, filename)
               == Success((bucket, ObjectUrl(fm, Path(folder, filename))))
  {
    var p := Path(folder, filename);
    var np := Path(newFolder, newFilename);
    var there := bucket[np := bucket[p]] - {p};
    assert Move(fm, bucket, folder, filename, newFolder, newFilename) == Success((there, ObjectUrl(fm, np)));
    var back := there[p := there[np]] - {np};
    assert Move(fm, there, newFolder, newFilename, folder, filename) == Success((back, ObjectUrl(fm, p)));
    assert back.Keys == bucket.Keys;
    assert forall k :: k in back ==> back[k] == bucket[k];
    assert back == bucket;
  }

  /** `delete`: remove exactly the object at the path. */
  function Delete(fm: FileManager, bucket: Bucket, folder: Option<string>, filename: string): (r: Bucket)
    ensures Path(folder, filename) !in r
    ensures forall k :: k != Path(folder, filename) ==> (k in r <==> k in bucket)
    ensures forall k :: k in r ==> r[k] == bucket[k]
  {
    bucket - {Path(folder, filename)}
  }

  /** Uploading to a free path and deleting it again restores the bucket. */
  lemma UploadThenDelete(fm: FileManager, bucket: Bucket, folder: Option<string>, filename: string, content: seq<Byte>)
    requires Path(folder, filename) !in bucket
    ensures Delete(fm, Upload(fm, bucket, folder, filename, content).0, folder, filename) == bucket
  {
    var r := Delete(fm, Upload(fm, bucket, folder, filename, content).0, folder, filename);
    assert r.Keys == bucket.Keys;
  }

  // ----- listing -----

  /** An entry of `listObjects(...).objectSummaries`. */
  datatype ObjectSummary = ObjectSummary(key: string, size: int)

  /** The service's listing: the summaries for a prefix (`None` lists the
      whole bucket). */
  type Listing = Option<string> -> seq<ObjectSummary>

  /** A listing that reports the bucket truthfully under `prefix`: every
      summary is an object with that prefix and its true size, and every such
      object is reported. */
  predicate Faithful(summaries: seq<ObjectSummary>, bucket: Bucket, prefix: string) {
    (forall i :: 0 <= i < |summaries| ==>
       summaries[i].key in bucket && prefix <= summaries[i].key
       && summaries[i].size == |bucket[summaries[i].key]|)
    && (forall k :: k in bucket && prefix <= k ==> exists i :: 0 <= i < |summaries| && summaries[i].key == k)
  }

  /** The keys of the non-empty objects, in listing order. */
  function NonEmptyKeys(summaries: seq<ObjectSummary>): (r: seq<string>)
    ensures |r| <= |summaries|
    ensures forall k :: k in r <==> exists i :: 0 <= i < |summaries| && summaries[i].key == k && summaries[i].size > 0
  {
    if |summaries| == 0 then []
    else
      var rest := NonEmptyKeys(summaries[1..]);
      assert forall i :: 0 < i < |summaries| ==> summaries[i] == summaries[1..][i - 1];
      if summaries[0].size > 0 then [summaries[0].key] + rest else rest
  }

  /** The filter keeps the listing's order: the keys of a concatenation are
      those of each part, one after the other. */
  lemma {:induction false} NonEmptyKeysAppend(xs: seq<ObjectSummary>, ys: seq<ObjectSummary>)
    ensures NonEmptyKeys(xs + ys) == NonEmptyKeys(xs) + NonEmptyKeys(ys)
    decreases |xs|
  {
    if |xs| > 0 {
      assert (xs + ys)[0] == xs[0];
      assert (xs + ys)[1..] == xs[1..] + ys;
      NonEmptyKeysAppend(xs[1..], ys);
    } else {
      assert xs + ys == ys;
    }
  }

  /** One summary gives its key exactly when the object is not empty. */
  lemma NonEmptyKeysOne(x: ObjectSummary)
    ensures NonEmptyKeys([x]) == if x.size > 0 then [x.key] else []
  {
    assert [x][1..] == [];
  }

  /** `list(folder)`. */
  function List(fm: FileManager, listing: Listing, folder: Option<string>): (r: seq<string>)
    ensures r == NonEmptyKeys(listing(folder))
    ensures |r| <= |listing(folder)|
    ensures forall k :: k in r <==>
              exists i :: 0 <= i < |listing(folder)| && listing(folder)[i].key == k && listing(folder)[i].size > 0
  {
    NonEmptyKeys(listing(folder))
  }

  /** With a truthful listing, `list(folder)` names exactly the non-empty
      objects whose key starts with the folder (no `/` is added, so folder
      `a` also lists `ab/c`). */
  lemma ListContents(fm: FileManager, listing: Listing, folder: Option<string>, bucket: Bucket)
    requires Faithful(listing(folder), bucket, folder.GetOr(""))
    ensures forall k :: k in List(fm, listing, folder) <==>
              k in bucket && folder.GetOr("") <= k && |bucket[k]| > 0
  {
    var summaries := listing(folder);
    forall k | k in bucket && folder.GetOr("") <= k && |bucket[k]| > 0
      ensures k in List(fm, listing, folder)
    {
      var i :| 0 <= i < |summaries| && summaries[i].key == k;
    }
  }

  /** `listFiles(folder)`, the deprecated name of `list`. */
  function ListFiles(fm: FileManager, listing: Listing, folder: Option<string>): (r: seq<string>)
    ensures r == List(fm, listing, folder)
  {
    List(fm, listing, folder)
  }
}
