/** The upload configuration of backend/src/config/storage.js: the one-time choice
    between S3 and local disk, the MIME allow-list filter, the byte-size limit,
    and the storage keys both variants generate. The multer middleware the
    configuration is handed to is summarised by Store. */
module Storage {
  import opened Strings

  /** The environment values storage.js reads; None is an unset variable. */
  datatype Env = Env(
    accessKeyId: Option<string>,
    secretAccessKey: Option<string>,
    bucket: Option<string>,
    region: Option<string>,
    maxFileSize: Option<string>,
    allowedFileTypes: Option<string>)

  datatype Backend = S3(bucket: string, region: string) | LocalDisk

  /** isS3Configured: S3 is used iff the access key, the secret and the bucket
      are all set and non-empty; the region falls back to us-east-1. */
  function ChooseBackend(env: Env): (b: Backend)
    ensures b.S3? <==> Truthy(env.accessKeyId) && Truthy(env.secretAccessKey) && Truthy(env.bucket)
    ensures b.S3? ==> b.bucket == env.bucket.value
    ensures b.S3? ==> b.region == if Truthy(env.region) then env.region.value else "us-east-1"
  {
    if Truthy(env.accessKeyId) && Truthy(env.secretAccessKey) && Truthy(env.bucket) then
      S3(env.bucket.value, if Truthy(env.region) then env.region.value else "us-east-1")
    else
      LocalDisk
  }

  const DefaultMaxFileSize: int := 10 * 1024 * 1024
  const DefaultAllowedTypes: string := "audio/mpeg,audio/mp3,audio/wav,audio/ogg"
  const DefaultTypeList: seq<string> := ["audio/mpeg", "audio/mp3", "audio/wav", "audio/ogg"]
  const InvalidTypeMessage: string := "Invalid file type. Only audio files are allowed."

  /** parseInt(MAX_FILE_SIZE) || 10 MiB: NaN and 0 fall back to the default;
      any other parsed value, negative ones included, is the limit. */
  function MaxFileSize(env: Env): (r: int)
    ensures r != 0
    ensures var p := ParseIntOpt(env.maxFileSize);
      (p.None? || p == Some(0)) ==> r == DefaultMaxFileSize
    ensures var p := ParseIntOpt(env.maxFileSize);
      (p.Some? && p.value != 0) ==> r == p.value
  {
    match ParseIntOpt(env.maxFileSize)
    case None => DefaultMaxFileSize
    case Some(n) => if n == 0 then DefaultMaxFileSize else n
  }

  /** A limit written as a decimal number is that number, except that 0 falls back
      to the default; an unset variable gives the default. */
  lemma MaxFileSizeOfDecimal(env: Env, n: nat)
    requires env.maxFileSize == Some(Decimal(n)) || (env.maxFileSize.None? && n == 0)
    ensures MaxFileSize(env) == if n == 0 then DefaultMaxFileSize else n
  {
    if env.maxFileSize.Some? {
      ParseIntDecimal(n);
    }
  }

  /** parseInt reads only the leading digits: MAX_FILE_SIZE=10MB is a 10-byte limit. */
  lemma MaxFileSizeIgnoresUnitSuffix(env: Env)
    requires env.maxFileSize == Some("10MB")
    ensures MaxFileSize(env) == 10
  {
    assert Decimal(10) == "10";
    assert [] + (Decimal(10) + "MB") == "10MB";
    ParseIntOfWrittenNumber([], 10, "MB");
  }

  /** ALLOWED_FILE_TYPES (or the default list when unset or empty) split at
      every comma, with no trimming. */
  function AllowedTypes(env: Env): seq<string> {
    Split(if Truthy(env.allowedFileTypes) then env.allowedFileTypes.value else DefaultAllowedTypes, ',')
  }

  /** fileFilter: a file is accepted iff its mimetype equals one of the allowed
      pieces. */
  predicate FileFilter(env: Env, mimetype: string) {
    mimetype in AllowedTypes(env)
  }

  /** Without ALLOWED_FILE_TYPES the allow-list is exactly the four audio types. */
  lemma DefaultAllowList(env: Env)
    requires !Truthy(env.allowedFileTypes)
    ensures AllowedTypes(env) == DefaultTypeList
  {
    assert DefaultAllowedTypes == Join(DefaultTypeList, ',');
    SplitJoin(DefaultTypeList, ',');
  }

  /** For a list written as comma-joined pieces, the filter accepts exactly those
      pieces, character for character. */
  lemma FileFilterOfList(env: Env, parts: seq<string>, mimetype: string)
    requires |parts| >= 1 && forall i :: 0 <= i < |parts| ==> ',' !in parts[i]
    requires env.allowedFileTypes == Some(Join(parts, ',')) && Join(parts, ',') != ""
    ensures FileFilter(env, mimetype) <==> mimetype in parts
  {
    var list := Join(parts, ',');
    assert AllowedTypes(env) == Split(list, ',');
    SplitJoin(parts, ',');
  }

  /** Pieces are not trimmed: in a list written "audio/mpeg, audio/wav" the
      second piece is " audio/wav", so audio/wav itself is refused and only the
      type with the leading space is accepted. */
  lemma FileFilterDoesNotTrim(env: Env, parts: seq<string>, m: string)
    requires |parts| >= 1 && forall i :: 0 <= i < |parts| ==> ',' !in parts[i]
    requires env.allowedFileTypes == Some(Join(parts, ',')) && Join(parts, ',') != ""
    requires " " + m in parts && m !in parts
    ensures !FileFilter(env, m) && FileFilter(env, " " + m)
  {
    FileFilterOfList(env, parts, m);
    FileFilterOfList(env, parts, " " + m);
  }

  // ---------------------------------------------------------------------------
  // storage keys; time is Date.now() and rand is Math.round(Math.random() * 1E9)

  function UniqueSuffix(time: nat, rand: nat): string {
    Decimal(time) + "-" + Decimal(rand)
  }

  /** The S3 object key. */
  function S3Key(originalname: string, time: nat, rand: nat): string {
    "calltones/" + UniqueSuffix(time, rand) + Extname(originalname)
  }

  const LocalDestination: string := "uploads/"

  /** The local file name inside LocalDestination. */
  function LocalFilename(originalname: string, time: nat, rand: nat): string {
    "calltone-" + UniqueSuffix(time, rand) + Extname(originalname)
  }

  /** The suffix determines the time and the random number it was made from. */
  lemma UniqueSuffixInjective(t1: nat, r1: nat, t2: nat, r2: nat)
    requires UniqueSuffix(t1, r1) == UniqueSuffix(t2, r2)
    ensures t1 == t2 && r1 == r2
  {
    SplitAtFirstDash(Decimal(t1), Decimal(r1), Decimal(t2), Decimal(r2));
    DecimalInjective(t1, t2);
    DecimalInjective(r1, r2);
  }

  /** The index of the first '-' in s, or |s|. */
  function FirstDash(s: string): nat {
    if |s| == 0 || s[0] == '-' then 0 else 1 + FirstDash(s[1..])
  }

  lemma {:induction false} FirstDashAfter(a: string, b: string)
    requires forall i :: 0 <= i < |a| ==> a[i] != '-'
    ensures FirstDash(a + "-" + b) == |a|
  {
    if |a| > 0 {
      assert (a + "-" + b)[1..] == a[1..] + "-" + b;
      FirstDashAfter(a[1..], b);
    }
  }

  lemma SplitAtFirstDash(a1: string, b1: string, a2: string, b2: string)
    requires a1 + "-" + b1 == a2 + "-" + b2
    requires forall i :: 0 <= i < |a1| ==> a1[i] != '-'
    requires forall i :: 0 <= i < |a2| ==> a2[i] != '-'
    ensures a1 == a2 && b1 == b2
  {
    var s := a1 + "-" + b1;
    FirstDashAfter(a1, b1);
    FirstDashAfter(a2, b2);
    assert a1 == s[..|a1|];
    assert a2 == s[..|a2|];
    assert b1 == s[|a1| + 1..];
    assert b2 == s[|a2| + 1..];
  }

  /** For one extension, distinct (time, random) pairs give distinct S3 keys. */
  lemma S3KeyInjective(n1: string, t1: nat, r1: nat, n2: string, t2: nat, r2: nat)
    requires Extname(n1) == Extname(n2)
    requires S3Key(n1, t1, r1) == S3Key(n2, t2, r2)
    ensures t1 == t2 && r1 == r2
  {
    var k := S3Key(n1, t1, r1);
    var e := |Extname(n1)|;
    assert k[10..|k| - e] == UniqueSuffix(t1, r1);
    assert S3Key(n2, t2, r2)[10..|k| - e] == UniqueSuffix(t2, r2);
    UniqueSuffixInjective(t1, r1, t2, r2);
  }

  /** For one extension, distinct (time, random) pairs give distinct local names. */
  lemma LocalFilenameInjective(n1: string, t1: nat, r1: nat, n2: string, t2: nat, r2: nat)
    requires Extname(n1) == Extname(n2)
    requires LocalFilename(n1, t1, r1) == LocalFilename(n2, t2, r2)
    ensures t1 == t2 && r1 == r2
  {
    var k := LocalFilename(n1, t1, r1);
    var e := |Extname(n1)|;
    assert k[9..|k| - e] == UniqueSuffix(t1, r1);
    assert LocalFilename(n2, t2, r2)[9..|k| - e] == UniqueSuffix(t2, r2);
    UniqueSuffixInjective(t1, r1, t2, r2);
  }

  /** Both names keep the original file's extension: "ring.mp3" is stored under a
      key and a file name ending in ".mp3". */
  lemma KeysKeepExtension(stem: string, ext: string, time: nat, rand: nat)
    requires |stem| > 0 && '/' !in stem && '/' !in ext && '.' !in ext && ext != ""
    ensures var k := S3Key(stem + "." + ext, time, rand);
      |k| > |ext| && k[|k| - |ext| - 1..] == "." + ext
    ensures var f := LocalFilename(stem + "." + ext, time, rand);
      |f| > |ext| && f[|f| - |ext| - 1..] == "." + ext
  {
    ExtnameOfPlainName(stem, ext);
  }

  // ---------------------------------------------------------------------------
  // the multer instance

  /** The `upload` object: the environment its filter reads, the backend and
      the size limit. */
  datatype UploadConfig = UploadConfig(env: Env, backend: Backend, fileSizeLimit: int)

  /** The configuration storage.js builds once, when the module is loaded. */
  function Configure(env: Env): UploadConfig
  {
    UploadConfig(env, ChooseBackend(env), MaxFileSize(env))
  }

  /** A file part as the client declared it. */
  datatype Incoming = Incoming(originalname: string, mimetype: string, size: nat)

  /** req.file after multer: for S3 the key and the object URL (location), for
      local disk the destination and the generated file name. */
  datatype StoredFile = StoredFile(
    originalname: string,
    mimetype: string,
    size: nat,
    destination: Option<string>,
    filename: Option<string>,
    key: Option<string>,
    location: Option<string>)

  /** Where a stored file went: on S3 under the generated key, at the URL S3
      reported; on local disk in uploads/ under the generated file name. */
  predicate PlacedBy(backend: Backend, originalname: string, time: nat, rand: nat, objectUrl: string,
                     file: StoredFile) {
    match backend
    case S3(_, _) =>
      && file.key == Some(S3Key(originalname, time, rand)) && file.location == Some(objectUrl)
      && file.destination.None? && file.filename.None?
    case LocalDisk =>
      && file.destination == Some(LocalDestination)
      && file.filename == Some(LocalFilename(originalname, time, rand))
      && file.key.None? && file.location.None?
  }

  datatype StoreError = InvalidFileType | FileTooLarge

  datatype StoreResult = Stored(file: StoredFile) | Rejected(error: StoreError)

  /** upload.single('file') on one file part: the filter runs first, then the size
      limit, and only a file passing both is written; `objectUrl` is the URL S3
      reports for the new object. */
  function Store(cfg: UploadConfig, f: Incoming, time: nat, rand: nat, objectUrl: string): (r: StoreResult)
    ensures r.Stored? <==> FileFilter(cfg.env, f.mimetype) && f.size <= cfg.fileSizeLimit
    ensures r.Rejected? ==> (r.error == InvalidFileType <==> !FileFilter(cfg.env, f.mimetype))
    ensures r.Stored? ==> (r.file.originalname == f.originalname
      && r.file.mimetype == f.mimetype && r.file.size == f.size)
    ensures r.Stored? ==> PlacedBy(cfg.backend, f.originalname, time, rand, objectUrl, r.file)
  {
    if !FileFilter(cfg.env, f.mimetype) then Rejected(InvalidFileType)
    else if f.size > cfg.fileSizeLimit then Rejected(FileTooLarge)
    else match cfg.backend
      case S3(_, _) =>
        Stored(StoredFile(f.originalname, f.mimetype, f.size, None, None,
                          Some(S3Key(f.originalname, time, rand)), Some(objectUrl)))
      case LocalDisk =>
        Stored(StoredFile(f.originalname, f.mimetype, f.size, Some(LocalDestination),
                          Some(LocalFilename(f.originalname, time, rand)), None, None))
  }

  /** The two variants apply the same filter and the same limit: for one
      environment a file is accepted or refused, and for the same reason, whichever
      backend is chosen; only where an accepted file goes differs. */
  lemma BackendsShareFilterAndLimit(env: Env, b1: Backend, b2: Backend, f: Incoming,
                                    time: nat, rand: nat, url: string)
    ensures var r1 := Store(UploadConfig(env, b1, MaxFileSize(env)), f, time, rand, url);
      var r2 := Store(UploadConfig(env, b2, MaxFileSize(env)), f, time, rand, url);
      && r1.Stored? == r2.Stored?
      && (r1.Rejected? ==> r1.error == r2.error)
      && (r1.Stored? ==> (r1.file.originalname == r2.file.originalname
          && r1.file.mimetype == r2.file.mimetype && r1.file.size == r2.file.size))
  {
  }

  /** With the default configuration a 10 MiB file of an allowed type is
      accepted and one byte more is refused as too large. */
  lemma DefaultLimitBoundary(env: Env, name: string, time: nat, rand: nat, url: string)
    requires env.maxFileSize.None? && env.allowedFileTypes.None?
    ensures Store(Configure(env), Incoming(name, "audio/mpeg", DefaultMaxFileSize), time, rand, url).Stored?
    ensures Store(Configure(env), Incoming(name, "audio/mpeg", DefaultMaxFileSize + 1), time, rand, url)
            == Rejected(FileTooLarge)
  {
    DefaultAllowList(env);
  }
}
